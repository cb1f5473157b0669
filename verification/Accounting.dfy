/**
 Human and agent time: sort the signals of every session into one stream, count each gap between
 neighbours that is positive and no wider than the idle threshold, give it to the signal that opens it.
 */
module Accounting {
  import opened Prelude
  import opened Timeline
  import opened MapSums
  import opened Ties

  /** A counted slice of time `[start, end)`, attributed to the key of the signal that opens it. */
  datatype Gap<+K> = Gap(start: int, end: int, key: K) {
    function Seconds(): int {
      WholeSeconds(end - start)
    }
  }

  predicate Counts(delta: int, idle: int) {
    0 < delta <= idle
  }

  /** The counted gaps of a sorted stream. */
  function GapsOf<K>(s: seq<Stamped<K>>, idle: int): seq<Gap<K>> {
    if |s| < 2 then []
    else
      var a, b := s[|s| - 2], s[|s| - 1];
      if Counts(b.at - a.at, idle)
      then GapsOf(s[..|s| - 1], idle) + [Gap(a.at, b.at, a.tag)]
      else GapsOf(s[..|s| - 1], idle)
  }

  function SumSeconds<K>(gaps: seq<Gap<K>>): int {
    if gaps == [] then 0 else SumSeconds(gaps[..|gaps| - 1]) + gaps[|gaps| - 1].Seconds()
  }

  lemma {:induction false} SumSecondsSnoc<K>(gaps: seq<Gap<K>>, g: Gap<K>)
    ensures SumSeconds(gaps + [g]) == SumSeconds(gaps) + g.Seconds()
  {
    assert (gaps + [g])[..|gaps|] == gaps;
  }

  lemma {:induction false} SumSecondsConcat<K>(a: seq<Gap<K>>, b: seq<Gap<K>>)
    ensures SumSeconds(a + b) == SumSeconds(a) + SumSeconds(b)
  {
    if b == [] {
      assert a + b == a;
    } else {
      var m := |b| - 1;
      SumSecondsConcat(a, b[..m]);
      assert (a + b)[..|a + b| - 1] == a + b[..m];
    }
  }

  method CountedGaps<K>(signals: seq<Stamped<K>>, idle: int) returns (gaps: seq<Gap<K>>)
    ensures gaps == GapsOf(SortByTime(signals), idle)
  {
    if |signals| < 2 {
      return [];
    }
    var ordered := SortByTime(signals);
    gaps := [];
    for i := 1 to |ordered|
      invariant gaps == GapsOf(ordered[..i], idle)
    {
      var a, b := ordered[i - 1], ordered[i];
      var delta := b.at - a.at;
      if delta > 0 && delta <= idle {
        gaps := gaps + [Gap(a.at, b.at, a.tag)];
      }
      assert ordered[..i + 1][..i] == ordered[..i];
    }
    assert ordered[..|ordered|] == ordered;
  }

  function TotalHumanSeconds<K>(signals: seq<Stamped<K>>, idle: int): int {
    SumSeconds(GapsOf(SortByTime(signals), idle))
  }

  /** The seconds counted over a sorted list of bare times. */
  function ActiveOf(s: seq<Stamped<()>>, idle: int): int {
    if |s| < 2 then 0
    else ActiveOf(s[..|s| - 1], idle) + Credit(s[|s| - 1].at - s[|s| - 2].at, idle)
  }

  function Credit(delta: int, idle: int): int {
    if Counts(delta, idle) then WholeSeconds(delta) else 0
  }

  function ActiveSeconds(times: seq<Stamped<()>>, idle: int): int {
    ActiveOf(SortByTime(times), idle)
  }

  // ---- the counted gaps, described without the algorithm -------------------------------------

  ghost predicate HasTime<K>(s: seq<Stamped<K>>, t: int) {
    exists x :: x in s && x.at == t
  }

  /** `a` and `b` are signal times no further than `idle` apart with no signal in between. */
  ghost predicate Adjacent<K>(s: seq<Stamped<K>>, idle: int, a: int, b: int) {
    && HasTime(s, a) && HasTime(s, b)
    && Counts(b - a, idle)
    && forall x :: x in s ==> !(a < x.at < b)
  }

  ghost predicate HasGap<K>(gaps: seq<Gap<K>>, a: int, b: int) {
    exists g :: g in gaps && g.start == a && g.end == b
  }

  lemma {:induction false} HasGapSnoc<K>(gaps: seq<Gap<K>>, g: Gap<K>, a: int, b: int)
    ensures HasGap(gaps + [g], a, b) <==> HasGap(gaps, a, b) || (g.start == a && g.end == b)
  {
    assert g in gaps + [g];
    forall h ensures h in gaps + [g] <==> h in gaps || h == g {}
  }

  /** In a sorted stream, adjacency is being next to each other. */
  lemma {:induction false} GapsOfSorted<K>(s: seq<Stamped<K>>, idle: int, a: int, b: int)
    requires Sorted(s)
    ensures HasGap(GapsOf(s, idle), a, b) <==> Adjacent(s, idle, a, b)
  {
    if |s| < 2 {
      forall x, y | x in s && y in s ensures x == y {}
    } else {
      var t, l := s[..|s| - 1], s[|s| - 1];
      GapsOfSorted(t, idle, a, b);
      assert s == t + [l];
      SnocGaps(t, l, idle, a, b);
      SnocAdjacent(t, l, idle, a, b);
    }
  }

  lemma {:induction false} SnocGaps<K>(t: seq<Stamped<K>>, l: Stamped<K>, idle: int, a: int, b: int)
    requires t != []
    ensures GapsOf(t + [l], idle) ==
            if Counts(l.at - t[|t| - 1].at, idle)
            then GapsOf(t, idle) + [Gap(t[|t| - 1].at, l.at, t[|t| - 1].tag)] else GapsOf(t, idle)
    ensures HasGap(GapsOf(t + [l], idle), a, b) <==>
            HasGap(GapsOf(t, idle), a, b) || (a == t[|t| - 1].at && b == l.at && Counts(b - a, idle))
  {
    assert (t + [l])[..|t|] == t;
    HasGapSnoc(GapsOf(t, idle), Gap(t[|t| - 1].at, l.at, t[|t| - 1].tag), a, b);
    hide HasGap;
  }

  lemma {:induction false} SnocAdjacent<K>(t: seq<Stamped<K>>, l: Stamped<K>, idle: int, a: int, b: int)
    requires t != [] && Sorted(t + [l])
    ensures Adjacent(t + [l], idle, a, b) <==>
            Adjacent(t, idle, a, b) || (a == t[|t| - 1].at && b == l.at && Counts(b - a, idle))
  {
    var s, p := t + [l], t[|t| - 1];
    assert s[|t| - 1] == p && p in s && p in t && l in s;
    forall x | x in t ensures x.at <= p.at <= l.at && x in s {
      var i :| 0 <= i < |t| && t[i] == x;
      assert s[i] == x && s[|t|] == l;
    }
    forall x | x in s ensures x in t || x == l {}
    assert HasTime(s, a) <==> HasTime(t, a) || a == l.at;
    assert HasTime(s, b) <==> HasTime(t, b) || b == l.at;
  }

  /**
   The counted gaps of any set of signals, in any order, are exactly the pairs of neighbouring signal
   times within the idle threshold: none is missing and none is extra.
   */
  lemma {:induction false} CountedGapsAreAdjacentPairs<K>(signals: seq<Stamped<K>>, idle: int, a: int, b: int)
    ensures HasGap(GapsOf(SortByTime(signals), idle), a, b) <==> Adjacent(signals, idle, a, b)
  {
    var s := SortByTime(signals);
    SortSorted(signals);
    GapsOfSorted(s, idle, a, b);
    forall x ensures x in s <==> x in signals { SortMember(signals, x); }
    assert HasTime(s, a) <==> HasTime(signals, a);
    assert HasTime(s, b) <==> HasTime(signals, b);
  }

  /** Ordered, pairwise disjoint gaps, each positive, within idle and inside `[lo, hi]`. */
  ghost predicate Disjoint<K>(g: seq<Gap<K>>, idle: int, lo: int, hi: int) {
    && (forall i, j :: 0 <= i < j < |g| ==> g[i].end <= g[j].start)
    && (forall i :: 0 <= i < |g| ==> Counts(g[i].end - g[i].start, idle) && lo <= g[i].start && g[i].end <= hi)
  }

  /** Counted gaps never overlap, and lie inside the span of the signals. */
  lemma {:induction false} GapsAreDisjoint<K>(s: seq<Stamped<K>>, idle: int)
    requires Sorted(s) && s != []
    ensures Disjoint(GapsOf(s, idle), idle, s[0].at, s[|s| - 1].at)
  {
    if |s| >= 2 {
      var n := |s| - 1;
      GapsAreDisjoint(s[..n], idle);
      assert s[..n][0] == s[0] && s[..n][n - 1] == s[n - 1];
    }
  }

  /** No wall-clock time is counted twice: the total never exceeds the span of the signals. */
  lemma {:induction false} TotalWithinSpan<K>(s: seq<Stamped<K>>, idle: int)
    requires Sorted(s) && s != []
    ensures 0 <= SumSeconds(GapsOf(s, idle)) <= WholeSeconds(s[|s| - 1].at - s[0].at)
  {
    if |s| >= 2 {
      var n := |s| - 1;
      TotalWithinSpan(s[..n], idle);
      var d := s[n].at - s[n - 1].at;
      WholeSecondsAdd(s[n - 1].at - s[0].at, d);
      assert WholeSeconds(d) >= 0;
    }
  }

  lemma {:induction false} HumanTotalWithinSpan<K>(signals: seq<Stamped<K>>, idle: int, lo: int, hi: int)
    requires forall x :: x in signals ==> lo <= x.at <= hi
    requires lo <= hi
    ensures 0 <= TotalHumanSeconds(signals, idle) <= WholeSeconds(hi - lo)
  {
    var s := SortByTime(signals);
    if s != [] {
      SortSorted(signals);
      TotalWithinSpan(s, idle);
      SortMember(signals, s[0]);
      SortMember(signals, s[|s| - 1]);
    }
  }

  lemma {:induction false} UntagSnoc<K>(t: seq<Stamped<K>>, l: Stamped<K>)
    ensures Untag(t + [l]) == Untag(t) + [Stamped(l.at, ())]
  {
  }

  lemma {:induction false} GapSumSnoc<K>(t: seq<Stamped<K>>, l: Stamped<K>, idle: int)
    requires t != []
    ensures SumSeconds(GapsOf(t + [l], idle)) == SumSeconds(GapsOf(t, idle)) + Credit(l.at - t[|t| - 1].at, idle)
  {
    assert (t + [l])[..|t|] == t;
    SumSecondsSnoc(GapsOf(t, idle), Gap(t[|t| - 1].at, l.at, t[|t| - 1].tag));
  }

  lemma {:induction false} GapSumIsActive<K>(s: seq<Stamped<K>>, idle: int)
    ensures SumSeconds(GapsOf(s, idle)) == ActiveOf(Untag(s), idle)
  {
    if |s| >= 2 {
      var t, l := s[..|s| - 1], s[|s| - 1];
      GapSumIsActive(t, idle);
      assert s == t + [l];
      GapSumSnoc(t, l, idle);
      UntagSnoc(t, l);
      ActiveSnoc(Untag(t), Stamped(l.at, ()), idle);
    }
  }

  /** The human total is the active time of the bare signal times. */
  lemma {:induction false} HumanTotalIsActive<K>(signals: seq<Stamped<K>>, idle: int)
    ensures TotalHumanSeconds(signals, idle) == ActiveSeconds(Untag(signals), idle)
  {
    GapSumIsActive(SortByTime(signals), idle);
    SortUntag(signals);
  }

  /** The order in which signals arrive never changes the human total, ties included. */
  lemma {:induction false} HumanTotalIgnoresOrder<K>(a: seq<Stamped<K>>, b: seq<Stamped<K>>, idle: int)
    requires multiset(a) == multiset(b)
    ensures TotalHumanSeconds(a, idle) == TotalHumanSeconds(b, idle)
  {
    SortedTimesIgnoreOrder(a, b);
    GapSumIsActive(SortByTime(a), idle);
    GapSumIsActive(SortByTime(b), idle);
  }

  // ---- attribution to a key ----------------------------------------------------------------

  /** The breakdown of a list of gaps by key. */
  function PerKey<K(==)>(gaps: seq<Gap<K>>): map<K, int> {
    if gaps == [] then map[]
    else AddTo(PerKey(gaps[..|gaps| - 1]), gaps[|gaps| - 1].key, gaps[|gaps| - 1].Seconds())
  }

  method PerKeySeconds<K(==)>(keyed: seq<Stamped<K>>, idle: int) returns (out: map<K, int>)
    ensures out == PerKey(GapsOf(SortByTime(keyed), idle))
  {
    if |keyed| < 2 {
      return map[];
    }
    var ordered := SortByTime(keyed);
    out := map[];
    for i := 1 to |ordered|
      invariant out == PerKey(GapsOf(ordered[..i], idle))
    {
      var a, b := ordered[i - 1], ordered[i];
      var delta := b.at - a.at;
      assert ordered[..i + 1][..i] == ordered[..i];
      if delta > 0 && delta <= idle {
        ghost var gaps := GapsOf(ordered[..i], idle);
        assert (gaps + [Gap(a.at, b.at, a.tag)])[..|gaps|] == gaps;
        out := AddTo(out, a.tag, WholeSeconds(delta));
      }
    }
    assert ordered[..|ordered|] == ordered;
  }

  lemma {:induction false} GapEndsAreTimes<K>(s: seq<Stamped<K>>, idle: int, g: Gap<K>)
    requires g in GapsOf(s, idle)
    ensures g.start < g.end && Stamped(g.start, g.key) in s && HasTime(s, g.end)
  {
    var t, a, b := s[..|s| - 1], s[|s| - 2], s[|s| - 1];
    assert a in s && b in s;
    if g in GapsOf(t, idle) {
      GapEndsAreTimes(t, idle, g);
      var y :| y in t && y.at == g.end;
      assert y in s;
    }
  }

  /** Every breakdown adds up to the one de-duplicated total, whatever the key is. */
  lemma {:induction false} PerKeySumsToTotal<K>(gaps: seq<Gap<K>>)
    ensures SumMap(PerKey(gaps)) == SumSeconds(gaps)
  {
    if gaps != [] {
      var n := |gaps| - 1;
      PerKeySumsToTotal(gaps[..n]);
      SumMapAddTo(PerKey(gaps[..n]), gaps[n].key, gaps[n].Seconds());
    }
  }

  /** What one key gets is the time of the gaps it opens, and it is listed iff it opens one. */
  lemma {:induction false} PerKeyIsOwnGaps<K>(gaps: seq<Gap<K>>, k: K, mine: Gap<K> -> bool)
    requires forall g :: g in gaps ==> (mine(g) <==> g.key == k)
    ensures Get(PerKey(gaps), k) == SumSeconds(Filter(gaps, mine))
    ensures k in PerKey(gaps) <==> Filter(gaps, mine) != []
  {
    if gaps != [] {
      var n := |gaps| - 1;
      PerKeyIsOwnGaps(gaps[..n], k, mine);
      if mine(gaps[n]) { SumSecondsSnoc(Filter(gaps[..n], mine), gaps[n]); }
    }
  }

  /** What a gap is worth to `k`, by the key that opens it. */
  function WorthTo<K(==)>(k: K, idle: int): (K, int) -> int {
    (opener: K, gap: int) => if opener == k then Credit(gap, idle) else 0
  }

  lemma {:induction false} ShareIsOpened<K>(s: seq<Stamped<K>>, idle: int, k: K)
    ensures Get(PerKey(GapsOf(s, idle)), k) == Opened(s, WorthTo(k, idle))
  {
    if |s| >= 2 {
      var n := |s| - 1;
      ShareIsOpened(s[..n], idle, k);
      assert s[..n] + [s[n]] == s;
      ShareSnoc(s[..n], s[n], idle, k);
    }
  }

  lemma {:induction false} ShareSnoc<K>(t: seq<Stamped<K>>, l: Stamped<K>, idle: int, k: K)
    requires t != []
    ensures Get(PerKey(GapsOf(t + [l], idle)), k) ==
            Get(PerKey(GapsOf(t, idle)), k) + WorthTo(k, idle)(t[|t| - 1].tag, l.at - t[|t| - 1].at)
  {
    hide GapsOf;
    hide PerKey;
    hide WholeSeconds;
    SnocGaps(t, l, idle, 0, 0);
    PerKeySnoc(GapsOf(t, idle), Gap(t[|t| - 1].at, l.at, t[|t| - 1].tag), k);
  }

  lemma {:induction false} PerKeySnoc<K>(gaps: seq<Gap<K>>, g: Gap<K>, k: K)
    ensures Get(PerKey(gaps + [g]), k) == Get(PerKey(gaps), k) + if g.key == k then g.Seconds() else 0
  {
    assert (gaps + [g])[..|gaps|] == gaps;
  }

  /** Two keys tie ahead of a counted gap of at least a whole second. */
  ghost predicate KeyTieMatters<K>(signals: seq<Stamped<K>>, idle: int) {
    exists x, y, z :: x in signals && y in signals && z in signals && OpensForEither(signals, idle, x, y, z)
  }

  ghost predicate OpensForEither<K>(signals: seq<Stamped<K>>, idle: int, x: Stamped<K>, y: Stamped<K>, z: Stamped<K>) {
    && x.at == y.at < z.at && x.tag != y.tag
    && (forall o :: o in signals ==> !(x.at < o.at < z.at))
    && NANOS <= z.at - x.at <= idle
  }

  lemma {:induction false} EitherIsMatters<K>(signals: seq<Stamped<K>>, idle: int, k: K, x: Stamped<K>, y: Stamped<K>, z: Stamped<K>)
    ensures Matters(signals, WorthTo(k, idle), x, y, z) ==> OpensForEither(signals, idle, x, y, z)
    ensures k == x.tag && OpensForEither(signals, idle, x, y, z) ==> Matters(signals, WorthTo(k, idle), x, y, z)
  {
  }

  lemma {:induction false} KeyTieIsATie<K(!new)>(signals: seq<Stamped<K>>, idle: int)
    ensures KeyTieMatters(signals, idle) <==> exists k: K :: TieMatters(signals, WorthTo(k, idle))
  {
    hide OpensForEither;
    hide Matters;
    if KeyTieMatters(signals, idle) {
      var x, y, z :| x in signals && y in signals && z in signals && OpensForEither(signals, idle, x, y, z);
      EitherIsMatters(signals, idle, x.tag, x, y, z);
      assert TieMatters(signals, WorthTo(x.tag, idle));
    }
    forall k: K | TieMatters(signals, WorthTo(k, idle)) ensures KeyTieMatters(signals, idle) {
      var x, y, z :| x in signals && y in signals && z in signals && Matters(signals, WorthTo(k, idle), x, y, z);
      EitherIsMatters(signals, idle, k, x, y, z);
    }
  }

  /** Every order of the signals gives `k` what this one gives it. */
  ghost predicate ShareOrderFree<K(!new)>(signals: seq<Stamped<K>>, idle: int, k: K) {
    forall other: seq<Stamped<K>> :: multiset(other) == multiset(signals) ==> SameShare(other, signals, idle, k)
  }

  ghost predicate SameShare<K>(a: seq<Stamped<K>>, b: seq<Stamped<K>>, idle: int, k: K) {
    Get(PerKey(GapsOf(SortByTime(a), idle)), k) == Get(PerKey(GapsOf(SortByTime(b), idle)), k)
  }

  lemma {:induction false} OneShareOrderFree<K(!new)>(signals: seq<Stamped<K>>, idle: int, k: K)
    ensures OrderFree(signals, WorthTo(k, idle)) <==> ShareOrderFree(signals, idle, k)
  {
    hide SortByTime;
    hide Opened;
    var worth := WorthTo(k, idle);
    forall other: seq<Stamped<K>>
      ensures SameShare(other, signals, idle, k) <==>
              Opened(SortByTime(other), worth) == Opened(SortByTime(signals), worth)
    {
      ShareIsOpened(SortByTime(other), idle, k);
      ShareIsOpened(SortByTime(signals), idle, k);
    }
  }

  /**
   The order in which signals arrive never changes what any key gets, if and only if no two keys tie
   ahead of a counted gap worth at least a whole second.
   */
  lemma {:induction false} SharesOrderFreeIff<K(!new)>(signals: seq<Stamped<K>>, idle: int)
    ensures (forall k: K :: ShareOrderFree(signals, idle, k)) <==> !KeyTieMatters(signals, idle)
  {
    hide ShareOrderFree;
    hide OrderFree;
    hide TieMatters;
    hide KeyTieMatters;
    KeyTieIsATie(signals, idle);
    forall k: K ensures ShareOrderFree(signals, idle, k) <==> !TieMatters(signals, WorthTo(k, idle)) {
      OrderFreeIff(signals, WorthTo(k, idle));
      OneShareOrderFree(signals, idle, k);
    }
  }

  /** With distinct times the breakdowns are equal, entry for entry. */
  lemma {:induction false} PerKeyIgnoresOrder<K>(a: seq<Stamped<K>>, b: seq<Stamped<K>>, idle: int)
    requires multiset(a) == multiset(b) && TimeDetermines(a)
    ensures PerKey(GapsOf(SortByTime(a), idle)) == PerKey(GapsOf(SortByTime(b), idle))
  {
    SortIgnoresOrder(a, b);
  }

  /** Such a tie: the same three signals give the minute to one project or to the other. */
  lemma {:induction false} PerKeyDependsOnTies()
    ensures var x, y, z := Stamped(0, "api"), Stamped(0, "web"), Stamped(60 * NANOS, "api");
            var idle := 300 * NANOS;
            && PerKey(GapsOf(SortByTime([x, y, z]), idle)) == map["web" := 60]
            && PerKey(GapsOf(SortByTime([y, x, z]), idle)) == map["api" := 60]
  {
    var x, y, z := Stamped(0, "api"), Stamped(0, "web"), Stamped(60 * NANOS, "api");
    TwoTiedThenOne(x, y, z);
    TwoTiedThenOne(y, x, z);
  }

  lemma {:induction false} TwoTiedThenOne(x: Stamped<string>, y: Stamped<string>, z: Stamped<string>)
    requires x.at == y.at == 0 && z.at == 60 * NANOS
    ensures PerKey(GapsOf(SortByTime([x, y, z]), 300 * NANOS)) == map[y.tag := 60]
  {
    SortOfSorted([x, y, z]);
    assert [x, y, z][..2] == [x, y];
    assert GapsOf([x, y], 300 * NANOS) == [];
    assert GapsOf([x, y, z], 300 * NANOS) == [Gap(0, 60 * NANOS, y.tag)];
    assert [Gap(0, 60 * NANOS, y.tag)][..0] == [];
  }

  // ---- adding one more time ----------------------------------------------------------------

  /**
   `t` falls strictly inside a counted gap and cuts it where both pieces lose part of a second that
   together is a whole one.
   */
  ghost predicate SplitsASecond(s: seq<Stamped<()>>, t: int, idle: int) {
    exists i :: 0 < i < |s| && CutsAt(s, i, t, idle)
  }

  ghost predicate CutsAt(s: seq<Stamped<()>>, i: int, t: int, idle: int)
    requires 0 < i < |s|
  {
    && s[i - 1].at < t < s[i].at
    && s[i].at - s[i - 1].at <= idle
    && (t - s[i - 1].at) % NANOS + (s[i].at - t) % NANOS >= NANOS
  }

  lemma {:induction false} SplitCredit(u: int, v: int, idle: int)
    requires 0 <= u && 0 < v
    ensures Credit(u, idle) + Credit(v, idle) < Credit(u + v, idle) <==>
            0 < u && u + v <= idle && u % NANOS + v % NANOS >= NANOS
  {
    WholeSecondsAdd(u, v);
    if u + v > idle {
      assert Credit(u, idle) >= 0 && Credit(v, idle) >= 0;
    }
  }

  lemma {:induction false} ActiveSnoc(s: seq<Stamped<()>>, x: Stamped<()>, idle: int)
    requires s != []
    ensures ActiveOf(s + [x], idle) == ActiveOf(s, idle) + Credit(x.at - s[|s| - 1].at, idle)
  {
    assert (s + [x])[..|s|] == s;
  }

  lemma {:induction false} SplitsSnoc(r: seq<Stamped<()>>, l: Stamped<()>, t: int, idle: int)
    requires r != []
    ensures SplitsASecond(r + [l], t, idle) <==> SplitsASecond(r, t, idle) || CutsAt(r + [l], |r|, t, idle)
  {
    forall i | 0 < i < |r| ensures CutsAt(r + [l], i, t, idle) <==> CutsAt(r, i, t, idle) {}
    if SplitsASecond(r, t, idle) {
      var i :| 0 < i < |r| && CutsAt(r, i, t, idle);
      assert CutsAt(r + [l], i, t, idle);
    }
  }

  /** Putting `x` in its place lowers the active time exactly when it splits a second. */
  ghost predicate LowersIffSplits(s: seq<Stamped<()>>, x: Stamped<()>, idle: int) {
    ActiveOf(Insert(s, x), idle) < ActiveOf(s, idle) <==> SplitsASecond(s, x.at, idle)
  }

  lemma {:induction false} InsertAtEnd(s: seq<Stamped<()>>, x: Stamped<()>, idle: int)
    requires Sorted(s) && (s == [] || s[|s| - 1].at <= x.at)
    ensures LowersIffSplits(s, x, idle)
  {
    if s != [] { ActiveSnoc(s, x, idle); }
    forall i | 0 < i < |s| ensures !CutsAt(s, i, x.at, idle) {}
  }

  lemma {:induction false} InsertBeforeOnly(l: Stamped<()>, x: Stamped<()>, idle: int)
    requires x.at < l.at
    ensures LowersIffSplits([l], x, idle)
  {
    ActiveSnoc([x], l, idle);
    assert Insert([l], x) == [x] + [l];
  }

  lemma {:induction false} InsertBeforeLast(r: seq<Stamped<()>>, l: Stamped<()>, x: Stamped<()>, idle: int)
    requires r != [] && Sorted(r) && r[|r| - 1].at <= x.at < l.at
    ensures LowersIffSplits(r + [l], x, idle)
  {
    ActiveSnoc(r, l, idle);
    ActiveSnoc(r + [x], l, idle);
    ActiveSnoc(r, x, idle);
    SplitsSnoc(r, l, x.at, idle);
    SplitCredit(x.at - r[|r| - 1].at, l.at - x.at, idle);
    NoCutBefore(r, x.at, idle);
    assert Insert(r + [l], x) == r + [x] + [l];
    hide Credit;
    hide ActiveOf;
    hide Insert;
    hide SplitsASecond;
  }

  lemma {:induction false} NoCutBefore(r: seq<Stamped<()>>, t: int, idle: int)
    requires r != [] && Sorted(r) && r[|r| - 1].at <= t
    ensures !SplitsASecond(r, t, idle)
  {
    forall i | 0 < i < |r| ensures !CutsAt(r, i, t, idle) {}
  }

  lemma {:induction false} InsertDeeper(r: seq<Stamped<()>>, l: Stamped<()>, x: Stamped<()>, idle: int)
    requires r != [] && x.at < r[|r| - 1].at && x.at < l.at
    requires LowersIffSplits(r, x, idle)
    ensures LowersIffSplits(r + [l], x, idle)
  {
    ActiveSnoc(r, l, idle);
    ActiveSnoc(Insert(r, x), l, idle);
    SplitsSnoc(r, l, x.at, idle);
  }

  lemma {:induction false} InsertActive(s: seq<Stamped<()>>, x: Stamped<()>, idle: int)
    requires Sorted(s)
    ensures LowersIffSplits(s, x, idle)
  {
    if s == [] || s[|s| - 1].at <= x.at {
      InsertAtEnd(s, x, idle);
    } else {
      var r, l := s[..|s| - 1], s[|s| - 1];
      assert s == r + [l];
      if r == [] {
        InsertBeforeOnly(l, x, idle);
        assert s == [l];
      } else if r[|r| - 1].at <= x.at {
        InsertBeforeLast(r, l, x, idle);
      } else {
        InsertActive(r, x, idle);
        InsertDeeper(r, l, x, idle);
      }
    }
  }

  /** Exactly when one more timestamp lowers the active time. */
  lemma {:induction false} AddingATimeLowersActive(times: seq<Stamped<()>>, t: int, idle: int)
    ensures ActiveSeconds(times + [Stamped(t, ())], idle) < ActiveSeconds(times, idle) <==>
            SplitsASecond(SortByTime(times), t, idle)
  {
    SortSorted(times);
    InsertActive(SortByTime(times), Stamped(t, ()), idle);
  }

  /** With whole-second timestamps it never does. */
  lemma {:induction false} WholeSecondTimesOnlyAddActive(times: seq<Stamped<()>>, t: int, idle: int)
    requires t % NANOS == 0
    requires forall x :: x in times ==> x.at % NANOS == 0
    ensures ActiveSeconds(times + [Stamped(t, ())], idle) >= ActiveSeconds(times, idle)
  {
    AddingATimeLowersActive(times, t, idle);
    var s := SortByTime(times);
    forall i | 0 < i < |s| ensures !CutsAt(s, i, t, idle) {
      SortMember(times, s[i - 1]);
      SortMember(times, s[i]);
      assert s[i - 1] in s && s[i] in s;
      DifferenceOfMultiples(t, s[i - 1].at);
      DifferenceOfMultiples(s[i].at, t);
    }
  }

  lemma {:induction false} DifferenceOfMultiples(a: int, b: int)
    requires a % NANOS == 0 && b % NANOS == 0
    ensures (a - b) % NANOS == 0
  {
  }

  /** With fractional ones it can: a sample in the middle of a counted second erases it. */
  lemma {:induction false} AFractionalTimeCanEraseASecond()
    ensures var whole := [Stamped(0, ()), Stamped(NANOS, ())];
            ActiveSeconds(whole, 300 * NANOS) == 1 &&
            ActiveSeconds(whole + [Stamped(NANOS / 2, ())], 300 * NANOS) == 0
  {
    var a, m, b := Stamped(0, ()), Stamped(NANOS / 2, ()), Stamped(NANOS, ());
    SortOfSorted([a, b]);
    assert [a, b][..1] == [a];
    assert Insert([a], m) == [a, m];
    assert Insert([a, b], m) == [a, m, b];
    assert [a, m, b][..2] == [a, m];
    assert [a, m][..1] == [a];
    assert ActiveOf([a], 300 * NANOS) == 0;
    assert ActiveOf([a, m], 300 * NANOS) == 0;
    assert [a, b] + [m] == [a, b, m];
  }
}
