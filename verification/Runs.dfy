/** Runs: an orchestrator and every session it spawned, shown as one entry of the session list. */
module Runs {
  import opened Prelude

  const MAX_DEPTH: nat := 8

  datatype SessionView = SessionView(id: string, orchestrator: bool, parent: Option<string>,
                                     project: Option<string>, repos: set<string>)

  datatype Run = Run(root: SessionView, members: seq<SessionView>, repos: set<string>, direct: set<string>) {
    predicate Folded() {
      |repos| <= 1
    }

    predicate IsScratch() {
      root.orchestrator && members == [] && repos == {}
    }
  }

  datatype Entry = Single(session: SessionView) | Grouped(run: Run)

  type Index = map<string, SessionView>

  /** The list indexed by id; a repeated id keeps its last session. */
  function IndexOf(sessions: seq<SessionView>): Index {
    if sessions == [] then map[]
    else IndexOf(sessions[..|sessions| - 1])[sessions[|sessions| - 1].id := sessions[|sessions| - 1]]
  }

  /** The listed parent. */
  function ParentOf(byId: Index, s: SessionView): Option<SessionView> {
    if s.parent.Some? && s.parent.value in byId then Some(byId[s.parent.value]) else None
  }

  /** The ancestor walk from `cur`, having passed `seen`, with `fuel` steps left. */
  function Walk(byId: Index, cur: SessionView, seen: seq<string>, root: Option<string>, fuel: nat): Option<string>
    decreases fuel
  {
    if fuel == 0 then root
    else
      match ParentOf(byId, cur)
      case None => root
      case Some(p) => if p.id in seen then None else Walk(byId, p, seen + [p.id], Some(p.id), fuel - 1)
  }

  function RootOf(byId: Index, s: SessionView): Option<string> {
    Walk(byId, s, [s.id], if s.orchestrator then Some(s.id) else None, MAX_DEPTH)
  }

  /** `root_of`: the topmost present ancestor, `None` for a session in no run or on a cycle. */
  method FindRoot(byId: Index, s: SessionView) returns (r: Option<string>)
    ensures r == RootOf(byId, s)
  {
    var seen := [s.id];
    var cur := s;
    var root := if s.orchestrator then Some(s.id) else None;
    for i := 0 to MAX_DEPTH
      invariant RootOf(byId, s) == Walk(byId, cur, seen, root, MAX_DEPTH - i)
    {
      var parent := ParentOf(byId, cur);
      if parent.None? {
        return root;
      }
      if parent.value.id in seen {
        return None;
      }
      seen := seen + [parent.value.id];
      root := Some(parent.value.id);
      cur := parent.value;
    }
    return root;
  }

  /** Being some session's root makes a session the head of that run. */
  function FinalRoot(byId: Index, heads: set<string>, s: SessionView): Option<string> {
    match RootOf(byId, s)
    case Some(r) => Some(r)
    case None => if s.id in heads then Some(s.id) else None
  }

  function Heads(byId: Index, sessions: seq<SessionView>): set<string> {
    set i | 0 <= i < |sessions| && RootOf(byId, sessions[i]).Some? :: RootOf(byId, sessions[i]).value
  }

  /** The root each listed session ends up under. */
  function Placed(sessions: seq<SessionView>, s: SessionView): Option<string> {
    FinalRoot(IndexOf(sessions), Heads(IndexOf(sessions), sessions), s)
  }

  function MembersOf(sessions: seq<SessionView>, roots: seq<Option<string>>, root: string): seq<SessionView>
    requires |sessions| == |roots|
  {
    if sessions == [] then []
    else
      var n := |sessions| - 1;
      var r := MembersOf(sessions[..n], roots[..n], root);
      if roots[n] == Some(root) && sessions[n].id != root then r + [sessions[n]] else r
  }

  // ---- one run -----------------------------------------------------------------------------

  /** The repos a session stands for: an orchestrator's touched repos, otherwise its project too. */
  function ReposOf(s: SessionView): set<string> {
    if s.orchestrator || s.project.None? then s.repos else s.repos + {s.project.value}
  }

  /** The session touched the repo, or has it as its project while it coordinates nobody. */
  ghost predicate StandsFor(s: SessionView, repo: string) {
    repo in s.repos || (!s.orchestrator && s.project == Some(repo))
  }

  ghost predicate Touches(sessions: seq<SessionView>, orchestrator: bool, repo: string) {
    exists i :: 0 <= i < |sessions| && sessions[i].orchestrator == orchestrator && StandsFor(sessions[i], repo)
  }

  /**
   A run's repos are those any of its sessions touches; direct ones are touched by an orchestrator
   and by no other session.
   */
  method BuildRun(root: SessionView, members: seq<SessionView>) returns (r: Run)
    ensures r.root == root && r.members == members
    ensures forall x :: x in r.repos <==> Touches([root] + members, true, x) || Touches([root] + members, false, x)
    ensures forall x :: x in r.direct <==> Touches([root] + members, true, x) && !Touches([root] + members, false, x)
    ensures r == RunOf(root, members)
  {
    var viaChildren, viaOrchestrators := {}, {};
    var all := [root] + members;
    for i := 0 to |all|
      invariant viaChildren == Via(all[..i], false) && viaOrchestrators == Via(all[..i], true)
    {
      assert all[..i + 1] == all[..i] + [all[i]];
      if all[i].orchestrator {
        viaOrchestrators := viaOrchestrators + all[i].repos;
      } else {
        viaChildren := viaChildren + (if all[i].project.Some? then {all[i].project.value} else {}) + all[i].repos;
      }
    }
    assert all[..|all|] == all;
    forall o, x ensures x in Via(all, o) <==> Touches(all, o, x) { ViaTouches(all, o, x); }
    r := Run(root, members, viaChildren + viaOrchestrators, viaOrchestrators - viaChildren);
  }

  function Via(sessions: seq<SessionView>, orchestrator: bool): set<string> {
    if sessions == [] then {}
    else
      var r, s := Via(sessions[..|sessions| - 1], orchestrator), sessions[|sessions| - 1];
      if s.orchestrator == orchestrator then r + ReposOf(s) else r
  }

  function RunOf(root: SessionView, members: seq<SessionView>): Run {
    var c, o := Via([root] + members, false), Via([root] + members, true);
    Run(root, members, c + o, o - c)
  }

  lemma {:induction false} TouchesSnoc(s: seq<SessionView>, v: SessionView, o: bool, x: string)
    ensures Touches(s + [v], o, x) <==> Touches(s, o, x) || (v.orchestrator == o && StandsFor(v, x))
  {
    var t := s + [v];
    assert t[|s|] == v;
    assert forall i :: 0 <= i < |s| ==> t[i] == s[i];
  }

  lemma {:induction false} ViaTouches(s: seq<SessionView>, o: bool, x: string)
    ensures x in Via(s, o) <==> Touches(s, o, x)
  {
    if s != [] {
      var t, v := s[..|s| - 1], s[|s| - 1];
      ViaTouches(t, o, x);
      TouchesSnoc(t, v, o, x);
      assert s == t + [v];
    }
  }

  ghost predicate TouchesAny(sessions: seq<SessionView>, repo: string) {
    Touches(sessions, true, repo) || Touches(sessions, false, repo)
  }

  /** A run folds into one repo's work exactly when its sessions touch at most one repo between them. */
  lemma {:induction false} FoldedIff(root: SessionView, members: seq<SessionView>)
    ensures RunOf(root, members).Folded() <==>
            forall x, y :: TouchesAny([root] + members, x) && TouchesAny([root] + members, y) ==> x == y
  {
    var all, repos := [root] + members, RunOf(root, members).repos;
    forall o, x ensures x in Via(all, o) <==> Touches(all, o, x) { ViaTouches(all, o, x); }
    forall x ensures x in repos <==> TouchesAny(all, x) {}
    AtMostOne(repos);
  }

  lemma {:induction false} AtMostOne(s: set<string>)
    ensures |s| <= 1 <==> forall x, y :: x in s && y in s ==> x == y
  {
    if x, y :| x in s && y in s && x != y {
      assert |s - {x}| >= 1 by { assert y in s - {x}; }
    }
    if |s| > 1 {
      var x :| x in s;
      assert s - {x} != {};
      var y :| y in s - {x};
    }
  }

  /** An orchestrator is a scratch session exactly when nothing joined it and it touched no repo itself. */
  lemma {:induction false} ScratchIff(root: SessionView, members: seq<SessionView>)
    ensures RunOf(root, members).IsScratch() <==> root.orchestrator && members == [] && root.repos == {}
  {
    var all := [root] + members;
    forall o, x ensures x in Via(all, o) <==> Touches(all, o, x) { ViaTouches(all, o, x); }
    if root.orchestrator && members == [] {
      assert all == [root];
      forall x ensures x in RunOf(root, members).repos <==> x in root.repos {
        assert all[0] == root;
        assert Touches(all, true, x) <==> x in ReposOf(root);
      }
    }
  }

  // ---- the grouped list --------------------------------------------------------------------

  function PlacedAll(sessions: seq<SessionView>): (r: seq<Option<string>>)
    ensures |r| == |sessions|
    ensures forall i :: 0 <= i < |sessions| ==> r[i] == Placed(sessions, sessions[i])
  {
    seq(|sessions|, i requires 0 <= i < |sessions| => Placed(sessions, sessions[i]))
  }

  /** The index maps ids to listed sessions, and every listed id is in it. */
  lemma {:induction false} IndexIsListed(sessions: seq<SessionView>)
    ensures forall k :: k in IndexOf(sessions) ==> IndexOf(sessions)[k].id == k && IndexOf(sessions)[k] in sessions
    ensures forall i :: 0 <= i < |sessions| ==> sessions[i].id in IndexOf(sessions)
  {
    if sessions != [] {
      IndexIsListed(sessions[..|sessions| - 1]);
    }
  }

  lemma {:induction false} WalkIsListed(byId: Index, cur: SessionView, seen: seq<string>, root: Option<string>,
                                        fuel: nat)
    requires forall k :: k in byId ==> byId[k].id == k
    requires root.Some? ==> root.value in byId
    ensures var r := Walk(byId, cur, seen, root, fuel); r.Some? ==> r.value in byId
    decreases fuel
  {
    if fuel > 0 && ParentOf(byId, cur).Some? {
      var p := ParentOf(byId, cur).value;
      WalkIsListed(byId, p, seen + [p.id], Some(p.id), fuel - 1);
    }
  }

  ghost predicate AllListed(sessions: seq<SessionView>, roots: seq<Option<string>>) {
    forall i :: 0 <= i < |roots| && roots[i].Some? ==> roots[i].value in IndexOf(sessions)
  }

  lemma {:induction false} PlacedAreListed(sessions: seq<SessionView>)
    ensures AllListed(sessions, PlacedAll(sessions))
  {
    IndexIsListed(sessions);
    var byId := IndexOf(sessions);
    forall s | s in sessions ensures Placed(sessions, s).Some? ==> Placed(sessions, s).value in byId {
      WalkIsListed(byId, s, [s.id], if s.orchestrator then Some(s.id) else None, MAX_DEPTH);
    }
  }

  /** What the session at position `i` adds to the output. */
  function EntryAt(sessions: seq<SessionView>, roots: seq<Option<string>>, i: nat): seq<Entry>
    requires |sessions| == |roots| && i < |sessions| && AllListed(sessions, roots)
  {
    match roots[i]
    case None => [Single(sessions[i])]
    case Some(r) =>
      if Some(r) in roots[..i] then []
      else [Grouped(RunOf(IndexOf(sessions)[r], MembersOf(sessions, roots, r)))]
  }

  function Entries(sessions: seq<SessionView>, roots: seq<Option<string>>, i: nat): seq<Entry>
    requires |sessions| == |roots| && i <= |sessions| && AllListed(sessions, roots)
  {
    if i == 0 then [] else Entries(sessions, roots, i - 1) + EntryAt(sessions, roots, i - 1)
  }

  function Grouping(sessions: seq<SessionView>): seq<Entry> {
    PlacedAreListed(sessions);
    Entries(sessions, PlacedAll(sessions), |sessions|)
  }

  method Group(sessions: seq<SessionView>) returns (out: seq<Entry>)
    ensures out == Grouping(sessions)
  {
    PlacedAreListed(sessions);
    var byId := BuildIndex(sessions);
    var roots := FindRoots(sessions, byId);
    var runs := CollectRuns(sessions, roots);
    out := Emit(sessions, byId, roots, runs);
  }

  method BuildIndex(sessions: seq<SessionView>) returns (byId: Index)
    ensures byId == IndexOf(sessions)
  {
    byId := map[];
    for i := 0 to |sessions|
      invariant byId == IndexOf(sessions[..i])
    {
      assert sessions[..i + 1][..i] == sessions[..i];
      byId := byId[sessions[i].id := sessions[i]];
    }
    assert sessions[..|sessions|] == sessions;
  }

  method FindRoots(sessions: seq<SessionView>, byId: Index) returns (roots: seq<Option<string>>)
    requires byId == IndexOf(sessions)
    ensures roots == PlacedAll(sessions)
  {
    var first: seq<Option<string>> := [];
    var heads: set<string> := {};
    for i := 0 to |sessions|
      invariant |first| == i
      invariant forall j :: 0 <= j < i ==> first[j] == RootOf(byId, sessions[j])
      invariant heads == set j | 0 <= j < i && RootOf(byId, sessions[j]).Some? :: RootOf(byId, sessions[j]).value
    {
      var r := FindRoot(byId, sessions[i]);
      first := first + [r];
      if r.Some? {
        heads := heads + {r.value};
      }
    }
    roots := [];
    for i := 0 to |sessions|
      invariant |roots| == i
      invariant forall j :: 0 <= j < i ==> roots[j] == Placed(sessions, sessions[j])
    {
      var r := if first[i].None? && sessions[i].id in heads then Some(sessions[i].id) else first[i];
      roots := roots + [r];
    }
  }

  /** A run under each claimed root, holding its members. */
  ghost predicate AreRuns(runs: map<string, seq<SessionView>>, sessions: seq<SessionView>, roots: seq<Option<string>>)
    requires |sessions| == |roots|
  {
    && (forall r :: r in runs <==> Some(r) in roots)
    && (forall r :: r in runs ==> runs[r] == MembersOf(sessions, roots, r))
  }

  method CollectRuns(sessions: seq<SessionView>, roots: seq<Option<string>>)
    returns (runs: map<string, seq<SessionView>>)
    requires |sessions| == |roots|
    ensures AreRuns(runs, sessions, roots)
  {
    hide *;
    NoRuns();
    runs := map[];
    assert sessions[..0] == [] && roots[..0] == [];
    for i := 0 to |sessions|
      invariant AreRuns(runs, sessions[..i], roots[..i])
    {
      RunsStep(runs, sessions, roots, i);
      if roots[i].Some? {
        var root := roots[i].value;
        var members := if root in runs then runs[root] else [];
        if sessions[i].id != root {
          members := members + [sessions[i]];
        }
        runs := runs[root := members];
      }
    }
    assert roots[..|roots|] == roots && sessions[..|sessions|] == sessions;
  }

  lemma {:induction false} NoRuns()
    ensures AreRuns(map[], [], [])
  {
  }

  lemma {:induction false} RunsStep(runs: map<string, seq<SessionView>>, sessions: seq<SessionView>,
                                    roots: seq<Option<string>>, i: nat)
    requires |sessions| == |roots| && i < |sessions| && AreRuns(runs, sessions[..i], roots[..i])
    ensures AreRuns(if roots[i].None? then runs else
                      var root := roots[i].value;
                      var members := if root in runs then runs[root] else [];
                      runs[root := if sessions[i].id != root then members + [sessions[i]] else members],
                    sessions[..i + 1], roots[..i + 1])
  {
    assert roots[..i + 1] == roots[..i] + [roots[i]];
    assert sessions[..i + 1][..i] == sessions[..i] && roots[..i + 1][..i] == roots[..i];
    if roots[i].Some? && roots[i].value !in runs { NobodyYet(sessions[..i], roots[..i], roots[i].value); }
  }

  lemma {:induction false} NobodyYet(sessions: seq<SessionView>, roots: seq<Option<string>>, root: string)
    requires |sessions| == |roots| && Some(root) !in roots
    ensures MembersOf(sessions, roots, root) == []
  {
    if sessions != [] {
      var n := |sessions| - 1;
      NobodyYet(sessions[..n], roots[..n], root);
    }
  }

  method Emit(sessions: seq<SessionView>, byId: Index, roots: seq<Option<string>>,
              runs: map<string, seq<SessionView>>) returns (out: seq<Entry>)
    requires byId == IndexOf(sessions) && |roots| == |sessions| && AllListed(sessions, roots)
    requires AreRuns(runs, sessions, roots)
    ensures out == Entries(sessions, roots, |sessions|)
  {
    hide RunOf;
    hide MembersOf;
    hide IndexOf;
    out := [];
    var emitted: set<string> := {};
    for i := 0 to |sessions|
      invariant out == Entries(sessions, roots, i)
      invariant forall r :: r in emitted <==> Some(r) in roots[..i]
    {
      assert roots[..i + 1] == roots[..i] + [roots[i]];
      if roots[i].None? {
        out := out + [Single(sessions[i])];
      } else if roots[i].value !in emitted {
        var root := roots[i].value;
        emitted := emitted + {root};
        assert roots[i] in roots;
        var run := BuildRun(byId[root], runs[root]);
        out := out + [Grouped(run)];
      }
    }
  }
}
