/**
 Many flushes against one: every counted gap of the log is emitted by some flush, back-dated signals
 included, and exactly when nothing else is.
 */
module Windowings {
  import opened Prelude
  import opened Timeline
  import opened Accounting
  import opened Windows

  /** The counted gaps of a whole log, taken in one go. */
  function OneShot<K>(log: seq<Stamped<K>>, idle: int): seq<Gap<K>> {
    GapsOf(SortByTime(log), idle)
  }

  // ---- which gaps one flush emits, and under which key -------------------------------------

  function AtTime<K>(t: int): Stamped<K> -> bool {
    (x: Stamped<K>) => x.at == t
  }

  /** The last signal at time `t`, in the order of the log, is `k`'s. */
  ghost predicate OpensAt<K>(log: seq<Stamped<K>>, t: int, k: K) {
    var at := Filter(log, AtTime(t));
    at != [] && at[|at| - 1].tag == k
  }

  lemma {:induction false} OpenerInSorted<K>(s: seq<Stamped<K>>, idle: int, g: Gap<K>)
    requires Sorted(s) && g in GapsOf(s, idle)
    ensures OpensAt(s, g.start, g.key) && g.end <= s[|s| - 1].at && g.start < g.end
  {
    var t, l := s[..|s| - 1], s[|s| - 1];
    assert s == t + [l];
    SnocGaps(t, l, idle, 0, 0);
    FilterSnoc(t, l, AtTime(g.start));
    if g in GapsOf(t, idle) {
      OpenerInSorted(t, idle, g);
    }
  }

  /** Tied signals keep the order of the log, so a gap belongs to the last signal at its start. */
  lemma {:induction false} OpenerIsLast<K>(log: seq<Stamped<K>>, idle: int, g: Gap<K>)
    requires g in OneShot(log, idle)
    ensures OpensAt(log, g.start, g.key)
  {
    SortSorted(log);
    OpenerInSorted(SortByTime(log), idle, g);
    SortFilter(log, AtTime(g.start));
    var at := Filter(log, AtTime(g.start));
    forall x | x in at ensures x.at == g.start { FilterMember(log, AtTime(g.start), x); }
    SortOfSorted(at);
  }

  /** A gap of the one-shot decomposition is known by its ends and its opener. */
  lemma {:induction false} GapIff<K>(log: seq<Stamped<K>>, idle: int, g: Gap<K>)
    ensures g in OneShot(log, idle) <==> Adjacent(log, idle, g.start, g.end) && OpensAt(log, g.start, g.key)
  {
    CountedGapsAreAdjacentPairs(log, idle, g.start, g.end);
    if g in OneShot(log, idle) {
      OpenerIsLast(log, idle, g);
    }
    if Adjacent(log, idle, g.start, g.end) && OpensAt(log, g.start, g.key) {
      var h :| h in OneShot(log, idle) && h.start == g.start && h.end == g.end;
      OpenerIsLast(log, idle, h);
      assert h == g;
    }
  }

  lemma {:induction false} EmittedAreGaps<K>(m: seq<Stamped<Sig<K>>>, idle: int, g: Gap<K>)
    requires g in EmittedOf(m, idle)
    ensures g in GapsOf(Retag(m, (s: Sig<K>) => s.key), idle)
  {
    var key := (s: Sig<K>) => s.key;
    var t, l := m[..|m| - 1], m[|m| - 1];
    assert m == t + [l];
    EmittedSnoc(t, l, idle);
    assert Retag(m, key) == Retag(t, key) + [Stamped(l.at, l.tag.key)];
    SnocGaps(Retag(t, key), Stamped(l.at, l.tag.key), idle, 0, 0);
    if g in EmittedOf(t, idle) {
      EmittedAreGaps(t, idle, g);
    }
  }

  lemma {:induction false} UnmarkMerged<K>(u: seq<Stamped<K>>, w: seq<Stamped<K>>)
    ensures Retag(Merged(u, w), (s: Sig<K>) => s.key) == SortByTime(u + w)
  {
    var m, key := Mark(u, false) + Mark(w, true), (s: Sig<K>) => s.key;
    SortRetag(m, key);
    assert Retag(m, key) == u + w;
  }

  /** What a flush emits: the gaps of the log so far that touch its window, each under its own key. */
  lemma {:induction false} FlushIff<K>(u: seq<Stamped<K>>, w: seq<Stamped<K>>, idle: int, g: Gap<K>)
    ensures g in EmittedOf(Merged(u, w), idle) <==>
            g in OneShot(u + w, idle) && (HasTime(w, g.start) || !HasTime(u, g.end))
  {
    EmittedIsTouched(u, w, idle, g.start, g.end);
    UnmarkMerged(u, w);
    GapIff(u + w, idle, g);
    if g in EmittedOf(Merged(u, w), idle) {
      EmittedAreGaps(Merged(u, w), idle, g);
    } else if HasGap(EmittedOf(Merged(u, w), idle), g.start, g.end) {
      var h :| h in EmittedOf(Merged(u, w), idle) && h.start == g.start && h.end == g.end;
      EmittedAreGaps(Merged(u, w), idle, h);
      GapIff(u + w, idle, h);
      assert OpensAt(u + w, g.start, g.key) ==> h == g;
    }
  }

  // ---- nothing is missing ------------------------------------------------------------------

  lemma {:induction false} TimesConcat<K>(u: seq<Stamped<K>>, w: seq<Stamped<K>>, t: int)
    ensures HasTime(u + w, t) <==> HasTime(u, t) || HasTime(w, t)
  {
    forall x ensures x in u + w <==> x in u || x in w {}
  }

  /** Whatever signals come later, an old gap they neither cut nor reopen stands. */
  lemma {:induction false} OpenerConcat<K>(u: seq<Stamped<K>>, w: seq<Stamped<K>>, t: int, k: K)
    ensures OpensAt(u + w, t, k) <==> if HasTime(w, t) then OpensAt(w, t, k) else OpensAt(u, t, k)
  {
    FilterConcat(u, w, AtTime(t));
    if HasTime(w, t) {
      var x :| x in w && x.at == t;
      FilterMember(w, AtTime(t), x);
    } else {
      FilterNone(w, AtTime(t));
      assert Filter(u, AtTime(t)) + [] == Filter(u, AtTime(t));
    }
  }

  lemma {:induction false} UntouchedWasThere<K>(u: seq<Stamped<K>>, w: seq<Stamped<K>>, idle: int, g: Gap<K>)
    requires g in OneShot(u + w, idle) && !HasTime(w, g.start) && HasTime(u, g.end)
    ensures g in OneShot(u, idle)
  {
    GapIff(u + w, idle, g);
    GapIff(u, idle, g);
    OpenerConcat(u, w, g.start, g.key);
    TimesConcat(u, w, g.start);
    forall x | x in u ensures x in u + w {}
  }

  /** Every counted gap of the log is emitted by some flush, however the log was cut and back-dated. */
  lemma {:induction false} EveryGapIsEmitted<K>(windows: seq<seq<Stamped<K>>>, idle: int, g: Gap<K>)
    requires g in OneShot(Concat(windows), idle)
    ensures g in Incremental(windows, idle)
  {
    if windows != [] {
      var u, w := Concat(windows[..|windows| - 1]), windows[|windows| - 1];
      FlushIff(u, w, idle, g);
      if g !in EmittedOf(Merged(u, w), idle) {
        UntouchedWasThere(u, w, idle, g);
        EveryGapIsEmitted(windows[..|windows| - 1], idle, g);
      }
    }
  }

  // ---- exactly when nothing is stale -------------------------------------------------------

  /** A signal of `w` falls strictly inside the gap. */
  ghost predicate Cuts<K>(w: seq<Stamped<K>>, g: Gap<K>) {
    exists x :: x in w && g.start < x.at < g.end
  }

  /** The signals of `w` at the gap's start end with another key's. */
  ghost predicate Reopens<K>(w: seq<Stamped<K>>, g: Gap<K>) {
    HasTime(w, g.start) && !OpensAt(w, g.start, g.key)
  }

  lemma {:induction false} StandsIff<K>(u: seq<Stamped<K>>, w: seq<Stamped<K>>, idle: int, g: Gap<K>)
    requires g in OneShot(u, idle)
    ensures g in OneShot(u + w, idle) <==> !Cuts(w, g) && !Reopens(w, g)
  {
    GapIff(u, idle, g);
    GapIff(u + w, idle, g);
    OpenerConcat(u, w, g.start, g.key);
    TimesConcat(u, w, g.start);
    TimesConcat(u, w, g.end);
    forall x ensures x in u + w <==> x in u || x in w {}
  }

  /** Some flush cuts or reopens a gap of the log before it. */
  ghost predicate Disturbed<K(!new)>(windows: seq<seq<Stamped<K>>>, idle: int) {
    exists n: nat, g: Gap<K> :: n < |windows| && DisturbedAt(windows, idle, n, g)
  }

  ghost predicate DisturbedAt<K>(windows: seq<seq<Stamped<K>>>, idle: int, n: nat, g: Gap<K>)
    requires n < |windows|
  {
    g in OneShot(Concat(windows[..n]), idle) && (Cuts(windows[n], g) || Reopens(windows[n], g))
  }

  ghost predicate SameIntervals<K(!new)>(windows: seq<seq<Stamped<K>>>, idle: int) {
    forall g: Gap<K> :: g in Incremental(windows, idle) <==> g in OneShot(Concat(windows), idle)
  }

  lemma {:induction false} CalmPrefix<K(!new)>(windows: seq<seq<Stamped<K>>>, idle: int)
    requires windows != [] && !Disturbed(windows, idle)
    ensures !Disturbed(windows[..|windows| - 1], idle)
  {
    var ws := windows[..|windows| - 1];
    forall n: nat, g: Gap<K> | n < |ws| ensures !DisturbedAt(ws, idle, n, g) {
      assert ws[..n] == windows[..n] && ws[n] == windows[n];
      assert !DisturbedAt(windows, idle, n, g);
    }
  }

  lemma {:induction false} CalmIsExact<K(!new)>(windows: seq<seq<Stamped<K>>>, idle: int, g: Gap<K>)
    requires !Disturbed(windows, idle) && g in Incremental(windows, idle)
    ensures g in OneShot(Concat(windows), idle)
  {
    if windows != [] {
      var n := |windows| - 1;
      var u, w := Concat(windows[..n]), windows[n];
      FlushIff(u, w, idle, g);
      if g !in EmittedOf(Merged(u, w), idle) {
        CalmPrefix(windows, idle);
        CalmIsExact(windows[..n], idle, g);
        assert !DisturbedAt(windows, idle, n, g);
        StandsIff(u, w, idle, g);
      }
    }
  }

  lemma {:induction false} EmittedStays<K>(windows: seq<seq<Stamped<K>>>, n: nat, idle: int, g: Gap<K>)
    requires n <= |windows| && g in Incremental(windows[..n], idle)
    ensures g in Incremental(windows, idle)
    decreases |windows|
  {
    if n == |windows| {
      assert windows[..n] == windows;
    } else {
      assert windows[..|windows| - 1][..n] == windows[..n];
      EmittedStays(windows[..|windows| - 1], n, idle, g);
    }
  }

  lemma {:induction false} EmittedAtFlush<K>(windows: seq<seq<Stamped<K>>>, n: nat, idle: int, g: Gap<K>)
    requires n < |windows| && g in EmittedOf(Merged(Concat(windows[..n]), windows[n]), idle)
    ensures g in Incremental(windows, idle)
  {
    assert windows[..n + 1][..n] == windows[..n];
    EmittedStays(windows, n + 1, idle, g);
  }

  lemma {:induction false} ConcatSplits<T>(windows: seq<seq<T>>, n: nat) returns (after: seq<T>)
    requires n < |windows|
    ensures Concat(windows) == Concat(windows[..n]) + windows[n] + after
    ensures Concat(windows[..n + 1]) == Concat(windows[..n]) + windows[n]
    decreases |windows|
  {
    assert windows[..n + 1][..n] == windows[..n];
    if n + 1 == |windows| {
      after := [];
      assert windows[..n + 1] == windows;
    } else {
      var ws := windows[..|windows| - 1];
      assert ws[..n] == windows[..n] && ws[n] == windows[n];
      var before := ConcatSplits(ws, n);
      after := before + windows[|windows| - 1];
      Regroup(Concat(windows[..n]) + windows[n], before, windows[|windows| - 1]);
    }
  }

  /** A gap that is counted early and late was counted all along, under whatever key then opened it. */
  lemma {:induction false} ReopenedIsExtra<K>(u: seq<Stamped<K>>, w: seq<Stamped<K>>, after: seq<Stamped<K>>,
                                              idle: int, g: Gap<K>) returns (h: Gap<K>)
    requires g in OneShot(u, idle) && g in OneShot(u + w + after, idle) && Reopens(w, g)
    ensures h in EmittedOf(Merged(u, w), idle) && h !in OneShot(u + w + after, idle)
  {
    hide OneShot;
    hide Adjacent;
    hide EmittedOf;
    GapIff(u, idle, g);
    GapIff(u + w + after, idle, g);
    var k := LastKeyAt(w, g.start);
    h := Gap(g.start, g.end, k);
    hide OpensAt;
    StillAdjacent(u, w, after, idle, g.start, g.end);
    OpenerConcat(u, w, g.start, h.key);
    GapIff(u + w, idle, h);
    FlushIff(u, w, idle, h);
    GapIff(u + w + after, idle, h);
  }

  lemma {:induction false} LastKeyAt<K>(w: seq<Stamped<K>>, t: int) returns (k: K)
    requires HasTime(w, t)
    ensures OpensAt(w, t, k) && forall j :: OpensAt(w, t, j) ==> j == k
  {
    var x :| x in w && x.at == t;
    FilterMember(w, AtTime(t), x);
    var at := Filter(w, AtTime(t));
    k := at[|at| - 1].tag;
  }

  lemma {:induction false} StillAdjacent<K>(u: seq<Stamped<K>>, w: seq<Stamped<K>>, after: seq<Stamped<K>>, idle: int, a: int, b: int)
    requires Adjacent(u, idle, a, b) && Adjacent(u + w + after, idle, a, b)
    ensures Adjacent(u + w, idle, a, b)
  {
    TimesConcat(u, w, a);
    TimesConcat(u, w, b);
    forall x | x in u + w ensures x in u + w + after {}
  }

  lemma {:induction false} DisturbedIsNotExact<K(!new)>(windows: seq<seq<Stamped<K>>>, idle: int, n: nat, g: Gap<K>)
    requires n < |windows| && DisturbedAt(windows, idle, n, g)
    ensures !SameIntervals(windows, idle)
  {
    hide OneShot;
    hide Concat;
    hide Incremental;
    var u, w := Concat(windows[..n]), windows[n];
    var after := ConcatSplits(windows, n);
    EveryGapIsEmitted(windows[..n], idle, g);
    EmittedStays(windows, n, idle, g);
    if g in OneShot(Concat(windows), idle) {
      NotCutInTheEnd(u, w, after, idle, g);
      var h := ReopenedIsExtra(u, w, after, idle, g);
      EmittedAtFlush(windows, n, idle, h);
    }
  }

  lemma {:induction false} NotCutInTheEnd<K>(u: seq<Stamped<K>>, w: seq<Stamped<K>>, after: seq<Stamped<K>>, idle: int, g: Gap<K>)
    requires g in OneShot(u + w + after, idle)
    ensures !Cuts(w, g)
  {
    GapIff(u + w + after, idle, g);
    forall x | x in w ensures x in u + w + after {}
  }

  /**
   The flushes emit exactly the intervals of one flush over the whole log, openers included, if and only
   if no flush brings a signal strictly inside a counted gap of the log before it, or takes over its start
   under another key.
   */
  lemma {:induction false} AnyWindowingIff<K(!new)>(windows: seq<seq<Stamped<K>>>, idle: int)
    ensures SameIntervals(windows, idle) <==> !Disturbed(windows, idle)
  {
    if Disturbed(windows, idle) {
      var n: nat, g: Gap<K> :| n < |windows| && DisturbedAt(windows, idle, n, g);
      DisturbedIsNotExact(windows, idle, n, g);
    } else {
      forall g: Gap<K> ensures g in Incremental(windows, idle) <==> g in OneShot(Concat(windows), idle) {
        if g in Incremental(windows, idle) { CalmIsExact(windows, idle, g); }
        if g in OneShot(Concat(windows), idle) { EveryGapIsEmitted(windows, idle, g); }
      }
    }
  }

  // ---- the start and end times alone -------------------------------------------------------

  ghost predicate SameSpans<K>(windows: seq<seq<Stamped<K>>>, idle: int) {
    forall a, b :: HasGap(Incremental(windows, idle), a, b) <==> HasGap(OneShot(Concat(windows), idle), a, b)
  }

  /** Some flush brings a signal strictly inside a counted gap of the log before it. */
  ghost predicate Cut<K(!new)>(windows: seq<seq<Stamped<K>>>, idle: int) {
    exists n: nat, g: Gap<K> :: n < |windows| && CutAt(windows, idle, n, g)
  }

  ghost predicate CutAt<K>(windows: seq<seq<Stamped<K>>>, idle: int, n: nat, g: Gap<K>)
    requires n < |windows|
  {
    g in OneShot(Concat(windows[..n]), idle) && Cuts(windows[n], g)
  }

  lemma {:induction false} UncutPrefix<K(!new)>(windows: seq<seq<Stamped<K>>>, idle: int)
    requires windows != [] && !Cut(windows, idle)
    ensures !Cut(windows[..|windows| - 1], idle)
  {
    var ws := windows[..|windows| - 1];
    forall n: nat, g: Gap<K> | n < |ws| ensures !CutAt(ws, idle, n, g) {
      assert ws[..n] == windows[..n] && ws[n] == windows[n];
      assert !CutAt(windows, idle, n, g);
    }
  }

  lemma {:induction false} UncutStays<K>(u: seq<Stamped<K>>, w: seq<Stamped<K>>, idle: int, a: int, b: int)
    requires Adjacent(u, idle, a, b) && forall g :: g in OneShot(u, idle) ==> !Cuts(w, g)
    ensures Adjacent(u + w, idle, a, b)
  {
    CountedGapsAreAdjacentPairs(u, idle, a, b);
    var g :| g in OneShot(u, idle) && g.start == a && g.end == b;
    assert !Cuts(w, g);
    TimesConcat(u, w, a);
    TimesConcat(u, w, b);
    forall x ensures x in u + w <==> x in u || x in w {}
  }

  lemma {:induction false} UncutIsExact<K(!new)>(windows: seq<seq<Stamped<K>>>, idle: int, g: Gap<K>)
    requires !Cut(windows, idle) && g in Incremental(windows, idle)
    ensures Adjacent(Concat(windows), idle, g.start, g.end)
  {
    if windows != [] {
      var n := |windows| - 1;
      var u, w := Concat(windows[..n]), windows[n];
      FlushIff(u, w, idle, g);
      GapIff(u + w, idle, g);
      if g !in EmittedOf(Merged(u, w), idle) {
        UncutPrefix(windows, idle);
        UncutIsExact(windows[..n], idle, g);
        forall h | h in OneShot(u, idle) ensures !Cuts(w, h) { assert !CutAt(windows, idle, n, h); }
        UncutStays(u, w, idle, g.start, g.end);
      }
    }
  }

  lemma {:induction false} CutIsStale<K(!new)>(windows: seq<seq<Stamped<K>>>, idle: int, n: nat, g: Gap<K>)
    requires n < |windows| && CutAt(windows, idle, n, g)
    ensures g in Incremental(windows, idle) && !HasGap(OneShot(Concat(windows), idle), g.start, g.end)
  {
    EveryGapIsEmitted(windows[..n], idle, g);
    EmittedStays(windows, n, idle, g);
    var after := ConcatSplits(windows, n);
    CountedGapsAreAdjacentPairs(Concat(windows), idle, g.start, g.end);
    var x :| x in windows[n] && g.start < x.at < g.end;
    assert x in Concat(windows[..n]) + windows[n] + after;
  }

  /** By start and end alone: exact if and only if no flush cuts a gap of the log before it. */
  lemma {:induction false} AnyWindowingSpansIff<K(!new)>(windows: seq<seq<Stamped<K>>>, idle: int)
    ensures SameSpans(windows, idle) <==> !Cut(windows, idle)
  {
    if Cut(windows, idle) {
      var n: nat, g: Gap<K> :| n < |windows| && CutAt(windows, idle, n, g);
      CutIsStale(windows, idle, n, g);
      assert HasGap(Incremental(windows, idle), g.start, g.end);
    } else {
      forall a, b ensures HasGap(Incremental(windows, idle), a, b) <==> HasGap(OneShot(Concat(windows), idle), a, b) {
        SpansAgree(windows, idle, a, b);
      }
    }
  }

  lemma {:induction false} SpansAgree<K(!new)>(windows: seq<seq<Stamped<K>>>, idle: int, a: int, b: int)
    requires !Cut(windows, idle)
    ensures HasGap(Incremental(windows, idle), a, b) <==> HasGap(OneShot(Concat(windows), idle), a, b)
  {
    CountedGapsAreAdjacentPairs(Concat(windows), idle, a, b);
    if HasGap(Incremental(windows, idle), a, b) {
      var g :| g in Incremental(windows, idle) && g.start == a && g.end == b;
      UncutIsExact(windows, idle, g);
    }
    if HasGap(OneShot(Concat(windows), idle), a, b) {
      var g :| g in OneShot(Concat(windows), idle) && g.start == a && g.end == b;
      EveryGapIsEmitted(windows, idle, g);
    }
  }
}
