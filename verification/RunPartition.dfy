/** Grouping is a partition of the session list, and exactly when. */
module RunPartition {
  import opened Prelude
  import opened Runs

  ghost predicate UniqueIds(sessions: seq<SessionView>) {
    forall i, j :: 0 <= i < j < |sessions| ==> sessions[i].id != sessions[j].id
  }

  /** The sessions an entry shows, its root first. */
  function SessionsIn(e: Entry): seq<SessionView> {
    match e
    case Single(s) => [s]
    case Grouped(run) => [run.root] + run.members
  }

  function Flatten(out: seq<Entry>): seq<SessionView> {
    if out == [] then [] else Flatten(out[..|out| - 1]) + SessionsIn(out[|out| - 1])
  }

  lemma {:induction false} FlattenAppend(out: seq<Entry>, add: seq<Entry>)
    requires |add| <= 1
    ensures Flatten(out + add) == Flatten(out) + Flatten(add)
  {
    if add == [] {
      assert out + add == out;
    } else {
      assert (out + add)[..|out|] == out && add[..0] == [];
    }
  }

  /** Every session claimed as a root heads its own run. */
  ghost predicate RootsSettle(sessions: seq<SessionView>) {
    forall i :: 0 <= i < |sessions| && Placed(sessions, sessions[i]).Some? ==>
      var r := Placed(sessions, sessions[i]).value;
      r in IndexOf(sessions) && Placed(sessions, IndexOf(sessions)[r]) == Some(r)
  }

  lemma {:induction false} IndexIsIdentity(sessions: seq<SessionView>)
    requires UniqueIds(sessions)
    ensures forall i :: 0 <= i < |sessions| ==>
              sessions[i].id in IndexOf(sessions) && IndexOf(sessions)[sessions[i].id] == sessions[i]
  {
    if sessions != [] {
      IndexIsIdentity(sessions[..|sessions| - 1]);
    }
  }

  // ---- how often one session is shown ------------------------------------------------------

  lemma {:induction false} UniqueCount(sessions: seq<SessionView>, x: SessionView)
    requires UniqueIds(sessions)
    ensures multiset(sessions)[x] == Bit(x in sessions)
  {
    if sessions != [] {
      var n := |sessions| - 1;
      UniqueCount(sessions[..n], x);
      assert sessions == sessions[..n] + [sessions[n]];
      forall i | 0 <= i < n ensures sessions[i] != sessions[n] {}
    }
  }

  lemma {:induction false} MembersCount(sessions: seq<SessionView>, roots: seq<Option<string>>, r: string, x: SessionView)
    requires |sessions| == |roots| && UniqueIds(sessions)
    ensures multiset(MembersOf(sessions, roots, r))[x] == Bit(x.id != r && Rooted(sessions, roots, r, x))
  {
    if sessions != [] {
      var n := |sessions| - 1;
      MembersCount(sessions[..n], roots[..n], r, x);
      RootedSnoc(sessions, roots, r, x);
      NotTwice(sessions, roots[..n], r, x);
      hide UniqueIds;
      hide Rooted;
    }
  }

  /** `x` is listed with root `r`. */
  ghost predicate Rooted(sessions: seq<SessionView>, roots: seq<Option<string>>, r: string, x: SessionView)
    requires |sessions| == |roots|
  {
    exists i :: 0 <= i < |sessions| && sessions[i] == x && roots[i] == Some(r)
  }

  lemma {:induction false} RootedSnoc(sessions: seq<SessionView>, roots: seq<Option<string>>, r: string, x: SessionView)
    requires |sessions| == |roots| && sessions != []
    ensures var n := |sessions| - 1;
            Rooted(sessions, roots, r, x) <==>
            Rooted(sessions[..n], roots[..n], r, x) || (sessions[n] == x && roots[n] == Some(r))
  {
    var n := |sessions| - 1;
    if Rooted(sessions[..n], roots[..n], r, x) {
      var i :| 0 <= i < n && sessions[..n][i] == x && roots[..n][i] == Some(r);
      assert sessions[i] == x && roots[i] == Some(r);
    }
    if Rooted(sessions, roots, r, x) {
      var i :| 0 <= i < |sessions| && sessions[i] == x && roots[i] == Some(r);
      if i < n { assert sessions[..n][i] == x && roots[..n][i] == Some(r); }
    }
  }

  lemma {:induction false} NotTwice(sessions: seq<SessionView>, roots: seq<Option<string>>, r: string, x: SessionView)
    requires UniqueIds(sessions) && |roots| == |sessions| - 1
    ensures UniqueIds(sessions[..|sessions| - 1])
    ensures x == sessions[|sessions| - 1] ==> !Rooted(sessions[..|sessions| - 1], roots, r, x)
  {
  }

  ghost predicate Standing(sessions: seq<SessionView>, roots: seq<Option<string>>, i: nat, x: SessionView)
    requires |sessions| == |roots| && i <= |sessions|
  {
    exists j :: 0 <= j < i && sessions[j] == x && roots[j] == None
  }

  ghost predicate Member(sessions: seq<SessionView>, roots: seq<Option<string>>, i: nat, x: SessionView)
    requires |sessions| == |roots| && i <= |sessions|
  {
    exists j :: 0 <= j < |sessions| && sessions[j] == x && roots[j].Some? && roots[j].value != x.id &&
                roots[j] in roots[..i]
  }

  ghost function Shown(sessions: seq<SessionView>, roots: seq<Option<string>>, i: nat, x: SessionView): nat
    requires |sessions| == |roots| && i <= |sessions| && AllListed(sessions, roots)
  {
    multiset(Flatten(Entries(sessions, roots, i)))[x]
  }

  /** After `i` sessions, `x` has been shown alone, as a head, and as a member, at most once each. */
  ghost predicate ShownAsExpected(sessions: seq<SessionView>, roots: seq<Option<string>>, i: nat, x: SessionView)
    requires |sessions| == |roots| && i <= |sessions| && AllListed(sessions, roots)
  {
    Shown(sessions, roots, i, x) ==
    Bit(Standing(sessions, roots, i, x)) + Bit(Some(x.id) in roots[..i]) + Bit(Member(sessions, roots, i, x))
  }

  lemma {:induction false} ShownStep(sessions: seq<SessionView>, roots: seq<Option<string>>, i: nat, x: SessionView)
    requires |sessions| == |roots| && i < |sessions| && UniqueIds(sessions) && AllListed(sessions, roots)
    requires x in sessions && ShownAsExpected(sessions, roots, i, x)
    ensures ShownAsExpected(sessions, roots, i + 1, x)
  {
    EntriesStep(sessions, roots, i, x);
    EntryCount(sessions, roots, i, x);
  }

  lemma {:induction false} ShownCount(sessions: seq<SessionView>, roots: seq<Option<string>>, x: SessionView)
    requires |sessions| == |roots| && UniqueIds(sessions) && AllListed(sessions, roots)
    requires x in sessions
    ensures ShownAsExpected(sessions, roots, |sessions|, x)
  {
    for i := 0 to |sessions|
      invariant ShownAsExpected(sessions, roots, i, x)
    {
      ShownStep(sessions, roots, i, x);
    }
  }

  lemma {:induction false} EntriesStep(sessions: seq<SessionView>, roots: seq<Option<string>>, i: nat, x: SessionView)
    requires |sessions| == |roots| && i < |sessions| && AllListed(sessions, roots)
    ensures multiset(Flatten(Entries(sessions, roots, i + 1)))[x] ==
            multiset(Flatten(Entries(sessions, roots, i)))[x] + multiset(Flatten(EntryAt(sessions, roots, i)))[x]
    ensures x in Flatten(Entries(sessions, roots, i + 1)) <==>
            x in Flatten(Entries(sessions, roots, i)) || x in Flatten(EntryAt(sessions, roots, i))
  {
    FlattenAppend(Entries(sessions, roots, i), EntryAt(sessions, roots, i));
  }

  /** Some member of the list was placed under the root that opens here, and is not that root itself. */
  ghost predicate OpensFor(sessions: seq<SessionView>, roots: seq<Option<string>>, i: nat, x: SessionView)
    requires |sessions| == |roots| && i < |sessions| && roots[i].Some?
  {
    x.id != roots[i].value && Rooted(sessions, roots, roots[i].value, x)
  }

  lemma {:induction false} RunCount(sessions: seq<SessionView>, roots: seq<Option<string>>, i: nat, x: SessionView)
    requires |sessions| == |roots| && i < |sessions| && UniqueIds(sessions) && AllListed(sessions, roots)
    requires x in sessions && roots[i].Some? && roots[i] !in roots[..i]
    ensures multiset(Flatten(EntryAt(sessions, roots, i)))[x] ==
            Bit(roots[i].value == x.id) + Bit(OpensFor(sessions, roots, i, x))
  {
    var r := roots[i].value;
    IndexIsIdentity(sessions);
    IndexIsListed(sessions);
    var root, members := IndexOf(sessions)[r], MembersOf(sessions, roots, r);
    MembersCount(sessions, roots, r, x);
    assert root == x <==> r == x.id;
  }

  /** What one entry shows of `x` is what changes in how `x` has been shown. */
  ghost predicate CountsAsExpected(sessions: seq<SessionView>, roots: seq<Option<string>>, i: nat, x: SessionView)
    requires |sessions| == |roots| && i < |sessions| && AllListed(sessions, roots)
  {
    multiset(Flatten(EntryAt(sessions, roots, i)))[x] ==
    Bit(Standing(sessions, roots, i + 1, x)) - Bit(Standing(sessions, roots, i, x)) +
    Bit(Some(x.id) in roots[..i + 1]) - Bit(Some(x.id) in roots[..i]) +
    Bit(Member(sessions, roots, i + 1, x)) - Bit(Member(sessions, roots, i, x))
  }

  lemma {:induction false} EntryCount(sessions: seq<SessionView>, roots: seq<Option<string>>, i: nat, x: SessionView)
    requires |sessions| == |roots| && i < |sessions| && UniqueIds(sessions) && AllListed(sessions, roots)
    requires x in sessions
    ensures CountsAsExpected(sessions, roots, i, x)
  {
    if roots[i].None? {
    } else if roots[i] in roots[..i] {
    } else {
      RunCount(sessions, roots, i, x);
      MemberStep(sessions, roots, i, x);
    }
  }

  lemma {:induction false} MemberStep(sessions: seq<SessionView>, roots: seq<Option<string>>, i: nat, x: SessionView)
    requires |sessions| == |roots| && i < |sessions| && UniqueIds(sessions)
    requires roots[i].Some? && roots[i] !in roots[..i]
    ensures Bit(Member(sessions, roots, i + 1, x)) ==
            Bit(Member(sessions, roots, i, x)) + Bit(OpensFor(sessions, roots, i, x))
  {
    assert roots[..i + 1] == roots[..i] + [roots[i]];
    forall o: Option<string> ensures o in roots[..i + 1] <==> o in roots[..i] || o == roots[i] {}
    if Member(sessions, roots, i, x) {
      var j :| 0 <= j < |sessions| && sessions[j] == x && roots[j].Some? && roots[j].value != x.id &&
               roots[j] in roots[..i];
      assert roots[j] in roots[..i + 1];
    }
  }

  /** Where a listed session ends up being shown. */
  lemma {:induction false} ShownTotal(sessions: seq<SessionView>, x: SessionView)
    requires UniqueIds(sessions) && x in sessions
    ensures var p := Placed(sessions, x);
            multiset(Flatten(Grouping(sessions)))[x] ==
            Bit(p.None?) + Bit(Claimed(sessions, x.id)) + Bit(p.Some? && p.value != x.id)
  {
    var roots, n := PlacedAll(sessions), |sessions|;
    PlacedAreListed(sessions);
    ShownCount(sessions, roots, x);
    assert roots[..n] == roots;
    var k :| 0 <= k < n && sessions[k] == x;
    assert roots[k] == Placed(sessions, x) && roots[k] in roots[..n];
    assert Standing(sessions, roots, n, x) <==> roots[k].None?;
    assert Member(sessions, roots, n, x) <==> roots[k].Some? && roots[k].value != x.id;
  }

  /** Some listed session is placed under `id`. */
  ghost predicate Claimed(sessions: seq<SessionView>, id: string) {
    Some(id) in PlacedAll(sessions)
  }

  lemma {:induction false} OnlyListedAreShown(sessions: seq<SessionView>, x: SessionView)
    requires x !in sessions
    ensures x !in Flatten(Grouping(sessions))
  {
    PlacedAreListed(sessions);
    OnlyListedSoFar(sessions, PlacedAll(sessions), x);
  }

  lemma {:induction false} OnlyListedSoFar(sessions: seq<SessionView>, roots: seq<Option<string>>, x: SessionView)
    requires |sessions| == |roots| && AllListed(sessions, roots) && x !in sessions
    ensures x !in Flatten(Entries(sessions, roots, |sessions|))
  {
    for i := 0 to |sessions|
      invariant x !in Flatten(Entries(sessions, roots, i))
    {
      EntriesStep(sessions, roots, i, x);
      EntryIsListed(sessions, roots, i, x);
    }
  }

  lemma {:induction false} EntryIsListed(sessions: seq<SessionView>, roots: seq<Option<string>>, i: nat, x: SessionView)
    requires |sessions| == |roots| && i < |sessions| && AllListed(sessions, roots) && x !in sessions
    ensures x !in Flatten(EntryAt(sessions, roots, i))
  {
    var e := EntryAt(sessions, roots, i);
    IndexIsListed(sessions);
    if e != [] {
      assert e[..0] == [] && Flatten(e) == [] + SessionsIn(e[0]);
      if roots[i].Some? { MembersAreListed(sessions, roots, roots[i].value, x); }
    }
  }

  lemma {:induction false} MembersAreListed(sessions: seq<SessionView>, roots: seq<Option<string>>, r: string, x: SessionView)
    requires |sessions| == |roots|
    ensures x in MembersOf(sessions, roots, r) <==>
            x.id != r && Rooted(sessions, roots, r, x)
  {
    if sessions != [] {
      MembersAreListed(sessions[..|sessions| - 1], roots[..|sessions| - 1], r, x);
      RootedSnoc(sessions, roots, r, x);
      hide Rooted;
    }
  }

  /**
   With unique ids, every session is shown exactly once if and only if every session claimed as a root
   is placed under itself.
   */
  lemma {:induction false} OnceIffRootsSettle(sessions: seq<SessionView>)
    requires UniqueIds(sessions)
    ensures multiset(Flatten(Grouping(sessions))) == multiset(sessions) <==> RootsSettle(sessions)
  {
    var shown := multiset(Flatten(Grouping(sessions)));
    IndexIsIdentity(sessions);
    IndexIsListed(sessions);
    PlacedAreListed(sessions);
    forall x ensures shown[x] == multiset(sessions)[x] <==> (x in sessions ==> OnceFor(sessions, x)) {
      UniqueCount(sessions, x);
      if x in sessions {
        ShownTotal(sessions, x);
      } else {
        OnlyListedAreShown(sessions, x);
      }
    }
    SettleIsOnceForAll(sessions);
    if RootsSettle(sessions) {
      assert shown == multiset(sessions);
    }
    if shown == multiset(sessions) {
      forall x | x in sessions ensures OnceFor(sessions, x) { assert shown[x] == multiset(sessions)[x]; }
    }
  }

  ghost predicate OnceFor(sessions: seq<SessionView>, x: SessionView) {
    Claimed(sessions, x.id) ==> Placed(sessions, x) == Some(x.id)
  }

  lemma {:induction false} SettleIsOnceForAll(sessions: seq<SessionView>)
    requires UniqueIds(sessions)
    ensures RootsSettle(sessions) <==> forall x :: x in sessions ==> OnceFor(sessions, x)
  {
    IndexIsIdentity(sessions);
    IndexIsListed(sessions);
    PlacedAreListed(sessions);
    var roots := PlacedAll(sessions);
    if RootsSettle(sessions) {
      forall x | x in sessions ensures OnceFor(sessions, x) {
        if Claimed(sessions, x.id) {
          var i :| 0 <= i < |roots| && roots[i] == Some(x.id);
        }
      }
    }
    if forall x :: x in sessions ==> OnceFor(sessions, x) {
      forall i | 0 <= i < |sessions| && Placed(sessions, sessions[i]).Some?
        ensures Placed(sessions, IndexOf(sessions)[Placed(sessions, sessions[i]).value]) == Placed(sessions, sessions[i])
      {
        var r := Placed(sessions, sessions[i]).value;
        assert roots[i] == Some(r) && roots[i] in roots;
        assert OnceFor(sessions, IndexOf(sessions)[r]);
      }
    }
  }
}
