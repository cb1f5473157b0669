/** Who shares a run, where runs sit in the list, and what a chain deeper than the limit does. */
module RunOrder {
  import opened Prelude
  import opened Runs
  import opened RunPartition
  import opened RunChains

  /** The run headed by the listed id `r`. */
  function RunUnder(sessions: seq<SessionView>, r: string): Entry
    requires r in IndexOf(sessions)
  {
    Grouped(RunOf(IndexOf(sessions)[r], MembersOf(sessions, PlacedAll(sessions), r)))
  }

  /** The entry that the session at `j` opens, if it opens one. */
  function Opened(sessions: seq<SessionView>, j: nat): seq<Entry>
    requires j < |sessions|
  {
    PlacedAreListed(sessions);
    EntryAt(sessions, PlacedAll(sessions), j)
  }

  function Upto(sessions: seq<SessionView>, i: nat): seq<Entry>
    requires i <= |sessions|
  {
    PlacedAreListed(sessions);
    Entries(sessions, PlacedAll(sessions), i)
  }

  lemma {:induction false} UptoStep(sessions: seq<SessionView>, i: nat)
    requires i < |sessions|
    ensures Upto(sessions, i + 1) == Upto(sessions, i) + Opened(sessions, i)
    ensures Upto(sessions, 0) == [] && Upto(sessions, |sessions|) == Grouping(sessions)
  {
  }

  /** A run shows exactly the sessions placed under its root. */
  lemma {:induction false} RunShows(sessions: seq<SessionView>, r: string, x: SessionView)
    requires UniqueIds(sessions) && RootsSettle(sessions) && Claimed(sessions, r) && r in IndexOf(sessions)
    ensures x in SessionsIn(RunUnder(sessions, r)) <==> x in sessions && Placed(sessions, x) == Some(r)
  {
    IndexIsIdentity(sessions);
    IndexIsListed(sessions);
    MembersAreListed(sessions, PlacedAll(sessions), r, x);
    var k :| 0 <= k < |sessions| && PlacedAll(sessions)[k] == Some(r);
    var root := IndexOf(sessions)[r];
    assert Placed(sessions, sessions[k]) == Some(r);
    assert Placed(sessions, root) == Some(r);
    if x in sessions && Placed(sessions, x) == Some(r) {
      var i :| 0 <= i < |sessions| && sessions[i] == x;
      assert PlacedAll(sessions)[i] == Some(r);
    }
  }

  lemma {:induction false} AllShallowSettle(sessions: seq<SessionView>)
    requires UniqueIds(sessions) && AllShallow(sessions)
    ensures RootsSettle(sessions)
  {
    ChainsSettleIff(sessions);
  }

  /** Every claimed root's run is in the output. */
  lemma {:induction false} ClaimedIsEmitted(sessions: seq<SessionView>, r: string)
    requires Claimed(sessions, r) && r in IndexOf(sessions)
    ensures RunUnder(sessions, r) in Grouping(sessions)
  {
    for i := 0 to |sessions|
      invariant Some(r) in PlacedAll(sessions)[..i] ==> RunUnder(sessions, r) in Upto(sessions, i)
    {
      EmittedByNow(sessions, r, i);
    }
    assert PlacedAll(sessions)[..|sessions|] == PlacedAll(sessions);
    if sessions != [] { UptoStep(sessions, |sessions| - 1); }
  }

  lemma {:induction false} OpensUnder(sessions: seq<SessionView>, r: string, i: nat)
    requires r in IndexOf(sessions) && i < |sessions|
    requires PlacedAll(sessions)[i] == Some(r) && Some(r) !in PlacedAll(sessions)[..i]
    ensures Opened(sessions, i) == [RunUnder(sessions, r)]
  {
  }

  lemma {:induction false} EmittedByNow(sessions: seq<SessionView>, r: string, i: nat)
    requires r in IndexOf(sessions) && i < |sessions|
    requires Some(r) in PlacedAll(sessions)[..i] ==> RunUnder(sessions, r) in Upto(sessions, i)
    ensures Some(r) in PlacedAll(sessions)[..i + 1] ==> RunUnder(sessions, r) in Upto(sessions, i + 1)
  {
    hide *;
    var roots := PlacedAll(sessions);
    UptoStep(sessions, i);
    assert roots[..i + 1] == roots[..i] + [roots[i]];
    if roots[i] == Some(r) && Some(r) !in roots[..i] {
      OpensUnder(sessions, r, i);
    }
  }

  /** Every output entry is a session in no run, or the run under a claimed root. */
  ghost predicate Shaped(sessions: seq<SessionView>, e: Entry) {
    match e
    case Single(s) => s in sessions && Placed(sessions, s).None?
    case Grouped(run) =>
      Claimed(sessions, run.root.id) && run.root.id in IndexOf(sessions) && e == RunUnder(sessions, run.root.id)
  }

  lemma {:induction false} OpenedIsShaped(sessions: seq<SessionView>, j: nat, e: Entry)
    requires j < |sessions| && e in Opened(sessions, j)
    ensures Shaped(sessions, e)
  {
    IndexIsListed(sessions);
    PlacedAreListed(sessions);
    var roots := PlacedAll(sessions);
    assert roots[j] in roots;
  }

  lemma {:induction false} OutputIsShaped(sessions: seq<SessionView>, e: Entry)
    requires e in Grouping(sessions)
    ensures Shaped(sessions, e)
  {
    for i := 0 to |sessions|
      invariant e in Upto(sessions, i) ==> Shaped(sessions, e)
    {
      UptoStep(sessions, i);
      if e in Opened(sessions, i) { OpenedIsShaped(sessions, i, e); }
    }
    if sessions != [] { UptoStep(sessions, |sessions| - 1); }
  }

  ghost predicate ShownTogether(sessions: seq<SessionView>, s: SessionView, t: SessionView) {
    exists e :: e in Grouping(sessions) && s in SessionsIn(e) && t in SessionsIn(e)
  }

  /** Two sessions are shown in one run if and only if they have the same topmost listed ancestor. */
  lemma {:induction false} TogetherIffSameTop(sessions: seq<SessionView>, s: SessionView, t: SessionView)
    requires UniqueIds(sessions) && AllShallow(sessions) && s in sessions && t in sessions && s != t
    ensures ShownTogether(sessions, s, t) <==>
            exists r :: IsTop(IndexOf(sessions), s, r) && IsTop(IndexOf(sessions), t, r)
  {
    AllShallowSettle(sessions);
    SameRootIffSameTop(sessions, s, t);
    if e :| e in Grouping(sessions) && s in SessionsIn(e) && t in SessionsIn(e) {
      OutputIsShaped(sessions, e);
      if e.Grouped? {
        RunShows(sessions, e.run.root.id, s);
        RunShows(sessions, e.run.root.id, t);
      }
    }
    if r :| Placed(sessions, s) == Some(r) == Placed(sessions, t) {
      var i :| 0 <= i < |sessions| && sessions[i] == s;
      assert PlacedAll(sessions)[i] == Some(r) && PlacedAll(sessions)[i] in PlacedAll(sessions);
      PlacedAreListed(sessions);
      ClaimedIsEmitted(sessions, r);
      RunShows(sessions, r, s);
      RunShows(sessions, r, t);
    }
  }

  /** A session placed under nobody is shown on its own. */
  lemma {:induction false} UnplacedStandsAlone(sessions: seq<SessionView>, k: nat)
    requires k < |sessions| && Placed(sessions, sessions[k]).None?
    ensures Single(sessions[k]) in Grouping(sessions)
  {
    UptoStep(sessions, k);
    assert Opened(sessions, k) == [Single(sessions[k])];
    assert Single(sessions[k]) in Upto(sessions, k + 1);
    for i := k + 1 to |sessions|
      invariant Single(sessions[k]) in Upto(sessions, i)
    {
      UptoStep(sessions, i);
    }
  }

  /** A session on or below a cycle stands alone. */
  lemma {:induction false} CyclicStandsAlone(sessions: seq<SessionView>, s: SessionView)
    requires UniqueIds(sessions) && AllShallow(sessions) && s in sessions
    requires forall r :: !IsTop(IndexOf(sessions), s, r)
    ensures Single(s) in Grouping(sessions)
  {
    ShallowRoot(sessions, s);
    if Placed(sessions, s).Some? { PlacedUnderTop(sessions, s, s); }
    var k :| 0 <= k < |sessions| && sessions[k] == s;
    UnplacedStandsAlone(sessions, k);
  }

  /** The entry holds the session at `j` and none listed before it. */
  ghost predicate OpensAt(sessions: seq<SessionView>, e: Entry, j: nat) {
    j < |sessions| && sessions[j] in SessionsIn(e) && forall i :: 0 <= i < j ==> sessions[i] !in SessionsIn(e)
  }

  lemma {:induction false} OpenedOpensHere(sessions: seq<SessionView>, j: nat, e: Entry)
    requires UniqueIds(sessions) && RootsSettle(sessions) && j < |sessions| && e in Opened(sessions, j)
    ensures OpensAt(sessions, e, j)
  {
    var roots := PlacedAll(sessions);
    PlacedAreListed(sessions);
    if roots[j].Some? {
      var r := roots[j].value;
      assert roots[j] in roots;
      RunShows(sessions, r, sessions[j]);
      forall i | 0 <= i < j ensures sessions[i] !in SessionsIn(e) {
        RunShows(sessions, r, sessions[i]);
        assert roots[i] == roots[..j][i];
      }
    }
  }

  /** `at` lists, in increasing order and below `i`, the positions that open these entries. */
  ghost predicate OpenedBy(sessions: seq<SessionView>, entries: seq<Entry>, i: nat, at: seq<nat>) {
    && |at| == |entries|
    && (forall k :: 0 <= k < |at| ==> at[k] < i && OpensAt(sessions, entries[k], at[k]))
    && (forall a, b :: 0 <= a < b < |at| ==> at[a] < at[b])
  }

  lemma {:induction false} OneMoreOpening(sessions: seq<SessionView>, entries: seq<Entry>, i: nat, at: seq<nat>,
                                          next: seq<Entry>)
    requires OpenedBy(sessions, entries, i, at)
    requires |next| <= 1 && (next != [] ==> OpensAt(sessions, next[0], i))
    ensures OpenedBy(sessions, entries + next, i + 1, if next == [] then at else at + [i])
  {
    if next == [] {
      assert entries + next == entries;
    } else {
      var es, to := entries + next, at + [i];
      forall k | 0 <= k < |to| ensures to[k] < i + 1 && OpensAt(sessions, es[k], to[k]) {
        if k < |at| { assert es[k] == entries[k] && to[k] == at[k]; } else { assert es[k] == next[0]; }
      }
    }
  }

  lemma {:induction false} OpenedFits(sessions: seq<SessionView>, i: nat)
    requires UniqueIds(sessions) && RootsSettle(sessions) && i < |sessions|
    ensures |Opened(sessions, i)| <= 1
    ensures Opened(sessions, i) != [] ==> OpensAt(sessions, Opened(sessions, i)[0], i)
  {
    var e := Opened(sessions, i);
    if e != [] { OpenedOpensHere(sessions, i, e[0]); }
  }

  lemma {:induction false} OpeningsNext(sessions: seq<SessionView>, i: nat, before: seq<nat>) returns (at: seq<nat>)
    requires UniqueIds(sessions) && RootsSettle(sessions) && i < |sessions|
    requires OpenedBy(sessions, Upto(sessions, i), i, before)
    ensures OpenedBy(sessions, Upto(sessions, i + 1), i + 1, at)
  {
    hide *;
    var next := Opened(sessions, i);
    OpenedFits(sessions, i);
    OneMoreOpening(sessions, Upto(sessions, i), i, before, next);
    UptoStep(sessions, i);
    at := if next == [] then before else before + [i];
  }

  lemma {:induction false} NoOpenings(sessions: seq<SessionView>)
    ensures OpenedBy(sessions, Upto(sessions, 0), 0, [])
  {
  }

  lemma {:induction false} OpeningsTo(sessions: seq<SessionView>, i: nat) returns (at: seq<nat>)
    requires UniqueIds(sessions) && RootsSettle(sessions) && i <= |sessions|
    ensures OpenedBy(sessions, Upto(sessions, i), i, at)
  {
    hide *;
    NoOpenings(sessions);
    at := [];
    for j := 0 to i
      invariant OpenedBy(sessions, Upto(sessions, j), j, at)
    {
      at := OpeningsNext(sessions, j, at);
    }
  }

  /** Runs keep the list's order: each entry sits where its earliest session does. */
  lemma {:induction false} EntriesSitAtEarliest(sessions: seq<SessionView>) returns (at: seq<nat>)
    requires UniqueIds(sessions) && ChainsSettle(sessions)
    ensures |at| == |Grouping(sessions)|
    ensures forall a, b :: 0 <= a < b < |at| ==> at[a] < at[b]
    ensures forall k :: 0 <= k < |at| ==> OpensAt(sessions, Grouping(sessions)[k], at[k])
  {
    ChainsSettleIff(sessions);
    at := OpeningsTo(sessions, |sessions|);
  }

  lemma {:induction false} MembersAreFiltered(sessions: seq<SessionView>, roots: seq<Option<string>>, r: string,
                                              mine: SessionView -> bool)
    requires |sessions| == |roots|
    requires forall i :: 0 <= i < |sessions| ==> (mine(sessions[i]) <==> roots[i] == Some(r) && sessions[i].id != r)
    ensures MembersOf(sessions, roots, r) == Filter(sessions, mine)
  {
    if sessions != [] {
      var n := |sessions| - 1;
      MembersAreFiltered(sessions[..n], roots[..n], r, mine);
    }
  }

  function MemberUnder(sessions: seq<SessionView>, r: string): SessionView -> bool {
    (s: SessionView) => Placed(sessions, s) == Some(r) && s.id != r
  }

  /** Members keep the list's order: a shown run has the listed sessions placed under its root, filtered. */
  lemma {:induction false} MembersKeepOrder(sessions: seq<SessionView>, e: Entry)
    requires e in Grouping(sessions) && e.Grouped?
    ensures e.run.members == Filter(sessions, MemberUnder(sessions, e.run.root.id))
  {
    OutputIsShaped(sessions, e);
    MembersAreFiltered(sessions, PlacedAll(sessions), e.run.root.id, MemberUnder(sessions, e.run.root.id));
  }

  // ---- deeper than the limit ---------------------------------------------------------------

  function Name(i: nat): string {
    seq(i, _ => 'x')
  }

  /** Ten sessions, each spawned by the next one, none flagged. */
  function TenDeep(): seq<SessionView> {
    seq(10, i requires 0 <= i < 10 => SessionView(Name(i), false, Some(Name(i + 1)), None, {}))
  }

  lemma {:induction false} ChainAncestor(byId: Index, s: seq<SessionView>, i: nat, n: nat)
    requires s == TenDeep() && i + n < 10
    requires forall k :: 0 <= k < 10 ==> Name(k) in byId && byId[Name(k)] == s[k]
    ensures Ancestor(byId, s[i], n) == Some(s[i + n])
  {
    if n > 0 {
      ChainAncestor(byId, s, i, n - 1);
      ChainParent(byId, s, i + n - 1);
    }
  }

  lemma {:induction false} ChainParent(byId: Index, s: seq<SessionView>, i: nat)
    requires s == TenDeep() && i < 9
    requires forall k :: 0 <= k < 10 ==> Name(k) in byId && byId[Name(k)] == s[k]
    ensures ParentOf(byId, s[i]) == Some(s[i + 1])
  {
    assert s[i].parent == Some(Name(i + 1)) && Name(i + 1) in byId;
  }

  ghost predicate TenListed(s: seq<SessionView>) {
    |s| == 10 && forall k :: 0 <= k < 10 ==> Name(k) in IndexOf(s) && IndexOf(s)[Name(k)] == s[k]
  }

  lemma {:induction false} TenIds()
    ensures UniqueIds(TenDeep()) && TenListed(TenDeep())
  {
    hide IndexOf;
    var s := TenDeep();
    forall i: nat, j: nat | i < j < 10 ensures s[i].id != s[j].id { assert |Name(i)| == i && |Name(j)| == j; }
    IndexIsIdentity(s);
    forall k | 0 <= k < 10 ensures Name(k) in IndexOf(s) && IndexOf(s)[Name(k)] == s[k] { assert s[k].id == Name(k); }
  }

  /** Ten sessions in one chain: the one eight steps up heads a run and is a member of another. */
  lemma {:induction false} DeepChainsAreShownTwice()
    ensures UniqueIds(TenDeep()) && !ChainsSettle(TenDeep())
    ensures multiset(Flatten(Grouping(TenDeep()))) != multiset(TenDeep())
  {
    hide IndexOf;
    hide RootOf;
    hide Name;
    hide Flatten;
    hide Grouping;
    hide ChainsSettle;
    hide RootsSettle;
    hide UniqueIds;
    var s := TenDeep();
    TenIds();
    TopOfChain(IndexOf(s), s);
    CutAtEight(IndexOf(s), s);
    UnsettledAtEight(s);
    OnceIffRootsSettle(s);
    ChainsSettleIff(s);
  }

  lemma {:induction false} UnsettledAtEight(s: seq<SessionView>)
    requires s == TenDeep() && Name(8) in IndexOf(s) && IndexOf(s)[Name(8)] == s[8]
    requires RootOf(IndexOf(s), s[0]) == Some(Name(8)) && RootOf(IndexOf(s), s[8]) == Some(Name(9))
    ensures !RootsSettle(s)
  {
    hide RootOf;
    hide IndexOf;
    assert Placed(s, s[0]) == Some(Name(8)) && Placed(s, s[8]) == Some(Name(9));
    assert |Name(8)| == 8 && |Name(9)| == 9;
  }

  lemma {:induction false} NotListed(s: seq<SessionView>, byId: Index)
    requires s == TenDeep() && byId == IndexOf(s)
    ensures Name(10) !in byId
  {
    IndexIsListed(s);
    assert forall i :: 0 <= i < 10 ==> |s[i].id| == i;
    assert |Name(10)| == 10;
  }

  lemma {:induction false} TopOfChain(byId: Index, s: seq<SessionView>)
    requires s == TenDeep() && byId == IndexOf(s) && UniqueIds(s)
    requires forall k :: 0 <= k < 10 ==> Name(k) in byId && byId[Name(k)] == s[k]
    ensures RootOf(byId, s[8]) == Some(Name(9))
  {
    ChainAncestor(byId, s, 8, 1);
    NotListed(s, byId);
    ListedIsNamed(s, s[8]);
    assert Ends(byId, s[8], 1);
    WalkEnds(byId, s[8], 1);
  }

  lemma {:induction false} CutAtEight(byId: Index, s: seq<SessionView>)
    requires s == TenDeep() && byId == IndexOf(s) && UniqueIds(s)
    requires forall k :: 0 <= k < 10 ==> Name(k) in byId && byId[Name(k)] == s[k]
    ensures RootOf(byId, s[0]) == Some(Name(8))
  {
    forall n: nat | n <= MAX_DEPTH ensures !Ends(byId, s[0], n) && !Repeats(byId, s[0], n) {
      ChainAncestor(byId, s, 0, n);
      ChainAncestor(byId, s, 0, n + 1);
      if Repeats(byId, s[0], n) {
        var i: nat :| i < n && Ancestor(byId, s[0], i) == Ancestor(byId, s[0], n);
        ChainAncestor(byId, s, 0, i);
      }
    }
    ListedIsNamed(s, s[0]);
    WalkCuts(byId, s[0]);
    ChainAncestor(byId, s, 0, 8);
  }
}
