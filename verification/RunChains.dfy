/** What the ancestor walk finds, in terms of the chains of listed parents. */
module RunChains {
  import opened Prelude
  import opened Runs
  import opened RunPartition

  /** The `n`-th listed ancestor, if the chain is that long. */
  ghost function Ancestor(byId: Index, s: SessionView, n: nat): Option<SessionView> {
    if n == 0 then Some(s)
    else
      match Ancestor(byId, s, n - 1)
      case None => None
      case Some(a) => ParentOf(byId, a)
  }

  /** The chain stops at its `n`-th ancestor. */
  ghost predicate Ends(byId: Index, s: SessionView, n: nat) {
    Ancestor(byId, s, n).Some? && ParentOf(byId, Ancestor(byId, s, n).value).None?
  }

  /** The `n`-th ancestor was already met. */
  ghost predicate Repeats(byId: Index, s: SessionView, n: nat) {
    Ancestor(byId, s, n).Some? && exists i: nat :: i < n && Ancestor(byId, s, i) == Ancestor(byId, s, n)
  }

  /** The chain ends, or revisits a session, within the depth limit. */
  ghost predicate Shallow(byId: Index, s: SessionView) {
    exists n: nat :: n <= MAX_DEPTH && (Ends(byId, s, n) || Repeats(byId, s, n))
  }

  /** `r` is the topmost listed ancestor of `s`, itself if no parent is listed. */
  ghost predicate IsTop(byId: Index, s: SessionView, r: SessionView) {
    exists n: nat :: Ancestor(byId, s, n) == Some(r) && ParentOf(byId, r).None?
  }

  /** Ids name sessions: the index returns what carries the id, and `s` is listed. */
  ghost predicate Named(byId: Index, s: SessionView) {
    && (forall k :: k in byId ==> byId[k].id == k)
    && s.id in byId && byId[s.id] == s
  }

  lemma {:induction false} AncestorShift(byId: Index, s: SessionView, i: nat, j: nat, d: nat)
    requires Ancestor(byId, s, i) == Ancestor(byId, s, j)
    ensures Ancestor(byId, s, i + d) == Ancestor(byId, s, j + d)
  {
    if d > 0 { AncestorShift(byId, s, i, j, d - 1); }
  }

  lemma {:induction false} AncestorPrefix(byId: Index, s: SessionView, m: nat, n: nat)
    requires m <= n && Ancestor(byId, s, n).Some?
    ensures Ancestor(byId, s, m).Some?
  {
    if m < n { AncestorPrefix(byId, s, m, n - 1); }
  }

  lemma {:induction false} AncestorPast(byId: Index, s: SessionView, m: nat, n: nat)
    requires m < n && Ends(byId, s, m)
    ensures Ancestor(byId, s, n).None?
  {
    if m + 1 < n { AncestorPast(byId, s, m, n - 1); }
  }

  /** A chain that ends never revisits a session. */
  lemma {:induction false} EndsNeverRepeats(byId: Index, s: SessionView, i: nat, j: nat, n: nat)
    requires i < j <= n && Ends(byId, s, n)
    ensures Ancestor(byId, s, i) != Ancestor(byId, s, j)
  {
    if Ancestor(byId, s, i) == Ancestor(byId, s, j) {
      AncestorShift(byId, s, i, j, n - j);
      var m := i + (n - j);
      assert Ends(byId, s, m);
      AncestorPast(byId, s, m, n);
    }
  }

  lemma {:induction false} TopIsUnique(byId: Index, s: SessionView, r: SessionView, q: SessionView)
    requires IsTop(byId, s, r) && IsTop(byId, s, q)
    ensures r == q
  {
    var n: nat :| Ancestor(byId, s, n) == Some(r) && ParentOf(byId, r).None?;
    var m: nat :| Ancestor(byId, s, m) == Some(q) && ParentOf(byId, q).None?;
    assert Ends(byId, s, n) && Ends(byId, s, m);
    if n < m { AncestorPast(byId, s, n, m); }
    if m < n { AncestorPast(byId, s, m, n); }
  }

  // ---- the walk follows the chain ----------------------------------------------------------

  ghost function Ids(byId: Index, s: SessionView, k: nat): (r: seq<string>)
    requires Ancestor(byId, s, k).Some?
    ensures |r| == k + 1
  {
    if k == 0 then [s.id]
    else
      AncestorPrefix(byId, s, k - 1, k);
      Ids(byId, s, k - 1) + [Ancestor(byId, s, k).value.id]
  }

  lemma {:induction false} IdsAreSeen(byId: Index, s: SessionView, k: nat, x: SessionView)
    requires Named(byId, s) && Ancestor(byId, s, k).Some? && Named(byId, x)
    ensures x.id in Ids(byId, s, k) <==> exists i: nat :: i <= k && Ancestor(byId, s, i) == Some(x)
  {
    if k > 0 {
      AncestorPrefix(byId, s, k - 1, k);
      IdsAreSeen(byId, s, k - 1, x);
      if i: nat :| i <= k && Ancestor(byId, s, i) == Some(x) {
        if i < k { assert i <= k - 1; }
      }
    } else {
      assert Ancestor(byId, s, 0) == Some(s);
    }
  }

  ghost function RootAt(byId: Index, s: SessionView, k: nat): Option<string>
    requires Ancestor(byId, s, k).Some?
  {
    if k > 0 then Some(Ancestor(byId, s, k).value.id) else if s.orchestrator then Some(s.id) else None
  }

  /** The walk as it stands at the `k`-th ancestor. */
  ghost function WalkFrom(byId: Index, s: SessionView, k: nat): Option<string>
    requires k <= MAX_DEPTH && Ancestor(byId, s, k).Some?
  {
    Walk(byId, Ancestor(byId, s, k).value, Ids(byId, s, k), RootAt(byId, s, k), MAX_DEPTH - k)
  }

  /** One step of the walk. */
  lemma {:induction false} WalkStep(byId: Index, s: SessionView, k: nat)
    requires Named(byId, s) && k < MAX_DEPTH && Ancestor(byId, s, k).Some?
    ensures Ends(byId, s, k) ==> WalkFrom(byId, s, k) == RootAt(byId, s, k)
    ensures !Ends(byId, s, k) ==> Ancestor(byId, s, k + 1).Some?
    ensures !Ends(byId, s, k) ==>
              WalkFrom(byId, s, k) == (if Repeats(byId, s, k + 1) then None else WalkFrom(byId, s, k + 1))
  {
    if !Ends(byId, s, k) {
      var p := Ancestor(byId, s, k + 1).value;
      IdsAreSeen(byId, s, k, p);
      SeenIsRepeat(byId, s, k);
    }
  }

  lemma {:induction false} SeenIsRepeat(byId: Index, s: SessionView, k: nat)
    requires Ancestor(byId, s, k + 1).Some?
    ensures Repeats(byId, s, k + 1) <==>
            exists i: nat :: i <= k && Ancestor(byId, s, i) == Some(Ancestor(byId, s, k + 1).value)
  {
    var p := Ancestor(byId, s, k + 1).value;
    assert Ancestor(byId, s, k + 1) == Some(p);
    if Repeats(byId, s, k + 1) {
      var i: nat :| i < k + 1 && Ancestor(byId, s, i) == Ancestor(byId, s, k + 1);
      assert i <= k && Ancestor(byId, s, i) == Some(p);
    }
    if i: nat :| i <= k && Ancestor(byId, s, i) == Some(p) {
      assert i < k + 1 && Ancestor(byId, s, i) == Ancestor(byId, s, k + 1);
    }
  }

  ghost predicate Undecided(byId: Index, s: SessionView, n: nat) {
    forall m: nat :: m < n ==> !Ends(byId, s, m) && !Repeats(byId, s, m)
  }

  /** While the chain neither ends nor revisits, the walk just moves up. */
  lemma {:induction false} WalkReaches(byId: Index, s: SessionView, n: nat)
    requires Named(byId, s) && n <= MAX_DEPTH && Undecided(byId, s, n)
    ensures Ancestor(byId, s, n).Some?
    ensures Repeats(byId, s, n) ==> RootOf(byId, s) == None
    ensures !Repeats(byId, s, n) ==> RootOf(byId, s) == WalkFrom(byId, s, n)
  {
    assert RootOf(byId, s) == WalkFrom(byId, s, 0);
    for k := 0 to n
      invariant Ancestor(byId, s, k).Some?
      invariant Repeats(byId, s, k) ==> RootOf(byId, s) == None
      invariant !Repeats(byId, s, k) ==> RootOf(byId, s) == WalkFrom(byId, s, k)
    {
      assert !Ends(byId, s, k) && !Repeats(byId, s, k);
      WalkStep(byId, s, k);
    }
  }

  /** A chain that ends at its `n`-th ancestor, within the limit: that ancestor is the root. */
  lemma {:induction false} WalkEnds(byId: Index, s: SessionView, n: nat)
    requires Named(byId, s) && n <= MAX_DEPTH && Ends(byId, s, n)
    ensures RootOf(byId, s) == RootAt(byId, s, n)
  {
    forall m: nat | m < n ensures !Ends(byId, s, m) && !Repeats(byId, s, m) {
      if Ends(byId, s, m) { AncestorPast(byId, s, m, n); }
      if Repeats(byId, s, m) {
        var i: nat :| i < m && Ancestor(byId, s, i) == Ancestor(byId, s, m);
        EndsNeverRepeats(byId, s, i, m, n);
      }
    }
    WalkReaches(byId, s, n);
    if Repeats(byId, s, n) {
      var i: nat :| i < n && Ancestor(byId, s, i) == Ancestor(byId, s, n);
      EndsNeverRepeats(byId, s, i, n, n);
    }
    if n < MAX_DEPTH { WalkStep(byId, s, n); }
  }

  /** A chain that revisits a session within the limit puts its session in no run. */
  lemma {:induction false} WalkRepeats(byId: Index, s: SessionView, n: nat)
    requires Named(byId, s) && n <= MAX_DEPTH && Repeats(byId, s, n)
    ensures RootOf(byId, s) == None
    ensures forall m: nat :: !Ends(byId, s, m)
  {
    forall m: nat ensures !Ends(byId, s, m) { RepeatsNeverEnds(byId, s, n, m); }
    var k := 0;
    while k < n && !Repeats(byId, s, k)
      invariant k <= n && Undecided(byId, s, k)
    {
      k := k + 1;
    }
    WalkReaches(byId, s, k);
  }

  lemma {:induction false} RepeatsNeverEnds(byId: Index, s: SessionView, n: nat, m: nat)
    requires Repeats(byId, s, n)
    ensures !Ends(byId, s, m)
  {
    if Ends(byId, s, m) {
      var i: nat :| i < n && Ancestor(byId, s, i) == Ancestor(byId, s, n);
      if n <= m {
        EndsNeverRepeats(byId, s, i, n, m);
      } else {
        AncestorPast(byId, s, m, n);
      }
    }
  }

  /** A longer chain is cut at its last allowed ancestor. */
  lemma {:induction false} WalkCuts(byId: Index, s: SessionView)
    requires Named(byId, s) && !Shallow(byId, s)
    ensures Ancestor(byId, s, MAX_DEPTH).Some?
    ensures RootOf(byId, s) == Some(Ancestor(byId, s, MAX_DEPTH).value.id)
  {
    forall m: nat | m <= MAX_DEPTH ensures !Ends(byId, s, m) && !Repeats(byId, s, m) {}
    WalkReaches(byId, s, MAX_DEPTH);
  }

  // ---- when every session is shown exactly once --------------------------------------------

  /** The session at which the walk is cut stands below a cycle that its own walk finds. */
  ghost predicate LoopsAbove(byId: Index, s: SessionView) {
    && Ancestor(byId, s, MAX_DEPTH).Some?
    && exists n: nat :: n <= MAX_DEPTH && Repeats(byId, Ancestor(byId, s, MAX_DEPTH).value, n)
  }

  lemma {:induction false} AncestorsAreListed(sessions: seq<SessionView>, s: SessionView, n: nat)
    requires UniqueIds(sessions) && s in sessions && Ancestor(IndexOf(sessions), s, n).Some?
    ensures Ancestor(IndexOf(sessions), s, n).value in sessions
  {
    IndexIsListed(sessions);
    if n > 0 { AncestorsAreListed(sessions, s, n - 1); }
  }

  /** The root `s` is placed under is placed under itself. */
  ghost predicate Settles(sessions: seq<SessionView>, s: SessionView) {
    Placed(sessions, s).Some? ==>
      var r := Placed(sessions, s).value;
      r in IndexOf(sessions) && Placed(sessions, IndexOf(sessions)[r]) == Some(r)
  }

  lemma {:induction false} HeadOfARun(sessions: seq<SessionView>, s: SessionView, r: string)
    requires s in sessions && RootOf(IndexOf(sessions), s) == Some(r)
    ensures r in Heads(IndexOf(sessions), sessions)
  {
    var i :| 0 <= i < |sessions| && sessions[i] == s;
    assert RootOf(IndexOf(sessions), sessions[i]).value == r;
  }

  /** A claimed root whose own walk finds no other is placed under itself. */
  lemma {:induction false} ClaimedStays(sessions: seq<SessionView>, s: SessionView, r: SessionView)
    requires UniqueIds(sessions) && s in sessions && r in sessions && RootOf(IndexOf(sessions), s) == Some(r.id)
    requires RootOf(IndexOf(sessions), r) in {None, Some(r.id)}
    ensures Settles(sessions, s)
  {
    IndexIsIdentity(sessions);
    HeadOfARun(sessions, s, r.id);
  }

  lemma {:induction false} TopStays(sessions: seq<SessionView>, s: SessionView, n: nat)
    requires UniqueIds(sessions) && s in sessions && n <= MAX_DEPTH && Ends(IndexOf(sessions), s, n)
    ensures Settles(sessions, s)
  {
    var byId := IndexOf(sessions);
    ListedIsNamed(sessions, s);
    IndexIsIdentity(sessions);
    WalkEnds(byId, s, n);
    AncestorsAreListed(sessions, s, n);
    var top := Ancestor(byId, s, n).value;
    ListedIsNamed(sessions, top);
    assert Ends(byId, top, 0);
    WalkEnds(byId, top, 0);
    if RootOf(byId, s).Some? { ClaimedStays(sessions, s, top); }
  }

  lemma {:induction false} ShallowSettles(sessions: seq<SessionView>, s: SessionView)
    requires UniqueIds(sessions) && s in sessions && Shallow(IndexOf(sessions), s)
    ensures Settles(sessions, s)
  {
    var byId := IndexOf(sessions);
    ListedIsNamed(sessions, s);
    var n: nat :| n <= MAX_DEPTH && (Ends(byId, s, n) || Repeats(byId, s, n));
    if Ends(byId, s, n) {
      TopStays(sessions, s, n);
    } else {
      WalkRepeats(byId, s, n);
      IndexIsIdentity(sessions);
    }
  }

  /** Above the cut the chain goes on, so the walk from there finds another root unless it finds a cycle. */
  lemma {:induction false} AboveTheCut(byId: Index, a: SessionView)
    requires Named(byId, a) && !Ends(byId, a, 0)
    ensures RootOf(byId, a) in {None, Some(a.id)} <==> exists n: nat :: n <= MAX_DEPTH && Repeats(byId, a, n)
  {
    assert Ancestor(byId, a, 0) == Some(a);
    if n: nat :| n <= MAX_DEPTH && Repeats(byId, a, n) {
      WalkRepeats(byId, a, n);
    } else if n: nat :| n <= MAX_DEPTH && Ends(byId, a, n) {
      WalkEnds(byId, a, n);
      AncestorIsNamed(byId, a, n);
      EndsNeverRepeats(byId, a, 0, n, n);
    } else {
      WalkCuts(byId, a);
      AncestorIsNamed(byId, a, MAX_DEPTH);
      assert !Repeats(byId, a, MAX_DEPTH);
    }
  }

  lemma {:induction false} AncestorIsNamed(byId: Index, s: SessionView, n: nat)
    requires Named(byId, s) && Ancestor(byId, s, n).Some?
    ensures Named(byId, Ancestor(byId, s, n).value)
  {
    if n > 0 { AncestorIsNamed(byId, s, n - 1); }
  }

  lemma {:induction false} DeepSettlesIff(sessions: seq<SessionView>, s: SessionView)
    requires UniqueIds(sessions) && s in sessions && !Shallow(IndexOf(sessions), s)
    ensures Settles(sessions, s) <==> LoopsAbove(IndexOf(sessions), s)
  {
    hide Walk;
    hide IndexOf;
    hide Repeats;
    hide Named;
    hide UniqueIds;
    var byId := IndexOf(sessions);
    ListedIsNamed(sessions, s);
    WalkCuts(byId, s);
    var a := Ancestor(byId, s, MAX_DEPTH).value;
    AncestorsAreListed(sessions, s, MAX_DEPTH);
    ListedIsNamed(sessions, a);
    assert !Ends(byId, s, MAX_DEPTH);
    assert !Ends(byId, a, 0);
    AboveTheCut(byId, a);
    HeadOfARun(sessions, s, a.id);
  }

  /** Every chain ends or repeats within the limit, or is cut below a cycle found within the limit from there. */
  ghost predicate ChainsSettle(sessions: seq<SessionView>) {
    forall s :: s in sessions ==> Shallow(IndexOf(sessions), s) || LoopsAbove(IndexOf(sessions), s)
  }

  lemma {:induction false} ChainsSettleIff(sessions: seq<SessionView>)
    requires UniqueIds(sessions)
    ensures RootsSettle(sessions) <==> ChainsSettle(sessions)
  {
    var byId := IndexOf(sessions);
    forall s | s in sessions ensures Settles(sessions, s) <==> Shallow(byId, s) || LoopsAbove(byId, s) {
      if Shallow(byId, s) { ShallowSettles(sessions, s); } else { DeepSettlesIff(sessions, s); }
    }
    AllSettle(sessions);
  }

  /** With unique ids every session is shown exactly once if and only if its parent links settle. */
  lemma {:induction false} ExactlyOnceIff(sessions: seq<SessionView>)
    requires UniqueIds(sessions)
    ensures multiset(Flatten(Grouping(sessions))) == multiset(sessions) <==> ChainsSettle(sessions)
  {
    OnceIffRootsSettle(sessions);
    ChainsSettleIff(sessions);
  }

  lemma {:induction false} AllSettle(sessions: seq<SessionView>)
    requires UniqueIds(sessions)
    ensures RootsSettle(sessions) <==> forall s :: s in sessions ==> Settles(sessions, s)
  {
    if RootsSettle(sessions) {
      forall s | s in sessions ensures Settles(sessions, s) {
        var i :| 0 <= i < |sessions| && sessions[i] == s;
      }
    }
    if forall s :: s in sessions ==> Settles(sessions, s) {
      forall i | 0 <= i < |sessions| ensures Settles(sessions, sessions[i]) {}
    }
  }

  // ---- with shallow chains -----------------------------------------------------------------

  ghost predicate AllShallow(sessions: seq<SessionView>) {
    forall i :: 0 <= i < |sessions| ==> Shallow(IndexOf(sessions), sessions[i])
  }

  lemma {:induction false} ListedIsNamed(sessions: seq<SessionView>, s: SessionView)
    requires UniqueIds(sessions) && s in sessions
    ensures Named(IndexOf(sessions), s)
  {
    IndexIsIdentity(sessions);
    IndexIsListed(sessions);
  }

  /** The walk of a shallow chain finds the topmost listed ancestor, or nothing on a cycle. */
  lemma {:induction false} ShallowRoot(sessions: seq<SessionView>, s: SessionView)
    requires UniqueIds(sessions) && AllShallow(sessions) && s in sessions
    ensures var byId := IndexOf(sessions);
            forall r :: IsTop(byId, s, r) ==>
              r in sessions && RootOf(byId, s) == if r == s && !s.orchestrator then None else Some(r.id)
    ensures (forall r :: !IsTop(IndexOf(sessions), s, r)) ==> RootOf(IndexOf(sessions), s) == None
  {
    var byId := IndexOf(sessions);
    ListedIsNamed(sessions, s);
    var n: nat :| n <= MAX_DEPTH && (Ends(byId, s, n) || Repeats(byId, s, n));
    if Ends(byId, s, n) {
      var top := Ancestor(byId, s, n).value;
      assert IsTop(byId, s, top);
      WalkEnds(byId, s, n);
      IndexIsListed(sessions);
      if n > 0 { EndsNeverRepeats(byId, s, 0, n, n); }
      forall r | IsTop(byId, s, r) ensures r == top { TopIsUnique(byId, s, r, top); }
    } else {
      WalkRepeats(byId, s, n);
      forall r ensures !IsTop(byId, s, r) {
        if IsTop(byId, s, r) {
          var m: nat :| Ancestor(byId, s, m) == Some(r) && ParentOf(byId, r).None?;
          assert Ends(byId, s, m);
        }
      }
    }
  }

  /** Placement under a root, said with chains. */
  lemma {:induction false} PlacedUnderTop(sessions: seq<SessionView>, s: SessionView, r: SessionView)
    requires UniqueIds(sessions) && AllShallow(sessions) && s in sessions && r in sessions
    requires Placed(sessions, s) == Some(r.id)
    ensures IsTop(IndexOf(sessions), s, r)
    ensures Placed(sessions, r) == Some(r.id)
  {
    var byId := IndexOf(sessions);
    IndexIsIdentity(sessions);
    if RootOf(byId, s) == None {
      assert s.id == r.id && s == r;
      var i :| 0 <= i < |sessions| && RootOf(byId, sessions[i]) == Some(r.id);
      RootIsTop(sessions, sessions[i], r);
      var n: nat :| Ancestor(byId, sessions[i], n) == Some(r) && ParentOf(byId, r).None?;
      assert Ancestor(byId, s, 0) == Some(r);
    } else {
      RootIsTop(sessions, s, r);
      var n: nat :| Ancestor(byId, s, n) == Some(r) && ParentOf(byId, r).None?;
      var i :| 0 <= i < |sessions| && sessions[i] == s;
      assert r.id in Heads(byId, sessions);
      assert Ancestor(byId, r, 0) == Some(r) && IsTop(byId, r, r);
      ShallowRoot(sessions, r);
    }
  }

  lemma {:induction false} RootIsTop(sessions: seq<SessionView>, s: SessionView, r: SessionView)
    requires UniqueIds(sessions) && AllShallow(sessions) && s in sessions && r in sessions
    requires RootOf(IndexOf(sessions), s) == Some(r.id)
    ensures IsTop(IndexOf(sessions), s, r)
  {
    var byId := IndexOf(sessions);
    ShallowRoot(sessions, s);
    IndexIsIdentity(sessions);
    var q :| IsTop(byId, s, q);
    assert q.id == r.id;
  }

  /** With shallow chains every session is shown exactly once. */
  lemma {:induction false} ShallowGroupingIsPartition(sessions: seq<SessionView>)
    requires UniqueIds(sessions) && AllShallow(sessions)
    ensures multiset(Flatten(Grouping(sessions))) == multiset(sessions)
  {
    ExactlyOnceIff(sessions);
  }

  /** Two sessions are placed under the same root exactly when they have the same topmost ancestor. */
  lemma {:induction false} SameRootIffSameTop(sessions: seq<SessionView>, s: SessionView, t: SessionView)
    requires UniqueIds(sessions) && AllShallow(sessions) && s in sessions && t in sessions && s != t
    ensures (exists r :: Placed(sessions, s) == Some(r) == Placed(sessions, t)) <==>
            (exists r :: IsTop(IndexOf(sessions), s, r) && IsTop(IndexOf(sessions), t, r))
  {
    var byId := IndexOf(sessions);
    IndexIsListed(sessions);
    PlacedAreListed(sessions);
    if r :| Placed(sessions, s) == Some(r) == Placed(sessions, t) {
      var i :| 0 <= i < |sessions| && sessions[i] == s;
      assert PlacedAll(sessions)[i] == Some(r);
      PlacedUnderTop(sessions, s, byId[r]);
      PlacedUnderTop(sessions, t, byId[r]);
    }
    if r :| IsTop(byId, s, r) && IsTop(byId, t, r) {
      ShallowRoot(sessions, s);
      ShallowRoot(sessions, t);
      if r == s {
        TopIsPlaced(sessions, t, s);
      } else if r == t {
        TopIsPlaced(sessions, s, t);
      }
      assert Placed(sessions, s) == Some(r.id) == Placed(sessions, t);
    }
  }

  /** A session that is another's topmost ancestor heads its run, flagged or not. */
  lemma {:induction false} TopIsPlaced(sessions: seq<SessionView>, s: SessionView, r: SessionView)
    requires UniqueIds(sessions) && AllShallow(sessions) && s in sessions && r in sessions && s != r
    requires IsTop(IndexOf(sessions), s, r)
    ensures Placed(sessions, r) == Some(r.id) == Placed(sessions, s)
  {
    var byId := IndexOf(sessions);
    ShallowRoot(sessions, s);
    var i :| 0 <= i < |sessions| && sessions[i] == s;
    assert r.id in Heads(byId, sessions);
    var n: nat :| Ancestor(byId, s, n) == Some(r) && ParentOf(byId, r).None?;
    assert Ancestor(byId, r, 0) == Some(r) && IsTop(byId, r, r);
    ShallowRoot(sessions, r);
  }
}
