/**
 Flushing the log in windows. A window is the signals past the sync cursor; the seed is the already
 synced signals close enough in time to bound a gap with one of them.
 */
module Windows {
  import opened Prelude
  import opened Timeline
  import opened Accounting

  datatype Sig<+K> = Sig(key: K, fromWindow: bool)

  function Mark<K>(s: seq<Stamped<K>>, fromWindow: bool): (r: seq<Stamped<Sig<K>>>)
    ensures |r| == |s|
    ensures forall i :: 0 <= i < |s| ==> r[i] == Stamped(s[i].at, Sig(s[i].tag, fromWindow))
  {
    Retag(s, (k: K) => Sig(k, fromWindow))
  }

  /** The intervals of a sorted, marked stream: a pair of two seed signals is skipped. */
  function EmittedOf<K>(s: seq<Stamped<Sig<K>>>, idle: int): seq<Gap<K>> {
    if |s| < 2 then []
    else
      var a, b := s[|s| - 2], s[|s| - 1];
      if (a.tag.fromWindow || b.tag.fromWindow) && Counts(b.at - a.at, idle)
      then EmittedOf(s[..|s| - 1], idle) + [Gap(a.at, b.at, a.tag.key)]
      else EmittedOf(s[..|s| - 1], idle)
  }

  /** Seed signals first, then the window, in one stable order of time. */
  function Merged<K>(seed: seq<Stamped<K>>, window: seq<Stamped<K>>): seq<Stamped<Sig<K>>> {
    SortByTime(Mark(seed, false) + Mark(window, true))
  }

  method BuildIntervalsSeeded<K>(window: seq<Stamped<K>>, idle: int, seed: seq<Stamped<K>>)
    returns (out: seq<Gap<K>>)
    ensures out == EmittedOf(Merged(seed, window), idle)
  {
    var tagged := SortByTime(Mark(seed, false) + Mark(window, true));
    out := [];
    if tagged == [] {
      return;
    }
    for i := 1 to |tagged|
      invariant out == EmittedOf(tagged[..i], idle)
    {
      assert tagged[..i + 1][..i] == tagged[..i];
      var a, b := tagged[i - 1], tagged[i];
      if !a.tag.fromWindow && !b.tag.fromWindow {
        continue;
      }
      var delta := b.at - a.at;
      if delta <= 0 || delta > idle {
        continue;
      }
      out := out + [Gap(a.at, b.at, a.tag.key)];
    }
    assert tagged[..|tagged|] == tagged;
  }

  // ---- the seed is enough ------------------------------------------------------------------

  /** Every window signal lies at least one idle inside `[lo, hi]`. */
  ghost predicate WindowInside<K>(s: seq<Stamped<Sig<K>>>, idle: int, lo: int, hi: int) {
    forall i :: 0 <= i < |s| && s[i].tag.fromWindow ==> lo + idle <= s[i].at <= hi - idle
  }

  lemma {:induction false} EmittedSnoc<K>(t: seq<Stamped<Sig<K>>>, l: Stamped<Sig<K>>, idle: int)
    requires t != []
    ensures var p := t[|t| - 1];
            EmittedOf(t + [l], idle) ==
            if (p.tag.fromWindow || l.tag.fromWindow) && Counts(l.at - p.at, idle)
            then EmittedOf(t, idle) + [Gap(p.at, l.at, p.tag.key)] else EmittedOf(t, idle)
  {
    assert (t + [l])[..|t|] == t;
  }

  lemma {:induction false} MarkMember<K>(s: seq<Stamped<K>>, w: bool, x: Stamped<Sig<K>>)
    ensures x in Mark(s, w) <==> x.tag.fromWindow == w && Stamped(x.at, x.tag.key) in s
  {
    if x in Mark(s, w) {
      var i :| 0 <= i < |s| && Mark(s, w)[i] == x;
      assert s[i] in s;
    }
    if x.tag.fromWindow == w && Stamped(x.at, x.tag.key) in s {
      var i :| 0 <= i < |s| && s[i] == Stamped(x.at, x.tag.key);
      assert Mark(s, w)[i] == x;
    }
  }

  ghost predicate SameInBand<K>(s: seq<Stamped<Sig<K>>>, idle: int, lo: int, hi: int) {
    EmittedOf(Filter(s, Between(lo, hi)), idle) == EmittedOf(s, idle)
  }

  lemma {:induction false} LastEntersBand<K>(t: seq<Stamped<Sig<K>>>, l: Stamped<Sig<K>>, idle: int, lo: int, hi: int)
    requires t != [] && SameInBand(t, idle, lo, hi) && Sorted(t) && WindowInside(t + [l], idle, lo, hi)
    requires t[|t| - 1].at < lo <= l.at <= hi && 0 <= idle
    ensures SameInBand(t + [l], idle, lo, hi)
  {
    var p := t[|t| - 1];
    assert (t + [l])[|t| - 1] == p && (t + [l])[|t|] == l;
    FilterSnoc(t, l, Between(lo, hi));
    EmittedSnoc(t, l, idle);
    FilterNone(t, Between(lo, hi));
  }

  /** Signals outside the band never bound an emitted gap. */
  lemma {:induction false} DropOutsideBand<K>(s: seq<Stamped<Sig<K>>>, idle: int, lo: int, hi: int)
    requires Sorted(s) && WindowInside(s, idle, lo, hi) && 0 <= idle
    ensures SameInBand(s, idle, lo, hi)
  {
    if |s| < 2 {
      assert |Filter(s, Between(lo, hi))| < 2;
    } else {
      var t, l := s[..|s| - 1], s[|s| - 1];
      DropOutsideBand(t, idle, lo, hi);
      LastDrops(t, l, idle, lo, hi);
      assert s == t + [l];
    }
  }

  lemma {:induction false} LastDrops<K>(t: seq<Stamped<Sig<K>>>, l: Stamped<Sig<K>>, idle: int, lo: int, hi: int)
    requires t != [] && SameInBand(t, idle, lo, hi) && 0 <= idle
    requires Sorted(t) && Sorted(t + [l]) && WindowInside(t + [l], idle, lo, hi)
    ensures SameInBand(t + [l], idle, lo, hi)
  {
    assert (t + [l])[|t| - 1] == t[|t| - 1] && (t + [l])[|t|] == l;
    if !(lo <= l.at <= hi) {
    } else if lo <= t[|t| - 1].at {
    } else {
      LastEntersBand(t, l, idle, lo, hi);
    }
  }

  /**
   Windowed accounting is global accounting: with the seed cut to one idle around the window, the
   emitted intervals, attribution included, are those the whole synced log would give.
   */
  lemma {:induction false} SeedIsEnough<K>(synced: seq<Stamped<K>>, window: seq<Stamped<K>>, idle: int, lo: int, hi: int)
    requires 0 <= idle
    requires forall w :: w in window ==> lo + idle <= w.at <= hi - idle
    ensures EmittedOf(Merged(SortByTime(Filter(synced, Between(lo, hi))), window), idle) ==
            EmittedOf(Merged(synced, window), idle)
  {
    var s := Merged(synced, window);
    MergedSortsSeed(Filter(synced, Between(lo, hi)), window);
    SeedIsFiltered(synced, window, idle, lo, hi);
    SortSorted(Mark(synced, false) + Mark(window, true));
    forall i | 0 <= i < |s| && s[i].tag.fromWindow ensures lo + idle <= s[i].at <= hi - idle {
      SortMember(Mark(synced, false) + Mark(window, true), s[i]);
      MarkMember(synced, false, s[i]);
      MarkMember(window, true, s[i]);
    }
    DropOutsideBand(s, idle, lo, hi);
  }

  lemma {:induction false} SeedIsFiltered<K>(synced: seq<Stamped<K>>, window: seq<Stamped<K>>, idle: int, lo: int, hi: int)
    requires 0 <= idle
    requires forall w :: w in window ==> lo + idle <= w.at <= hi - idle
    ensures Merged(Filter(synced, Between(lo, hi)), window) == Filter(Merged(synced, window), Between(lo, hi))
  {
    var u, v := Mark(synced, false), Mark(window, true);
    FilterRetag(synced, (k: K) => Sig(k, false), lo, hi);
    forall x | x in v ensures Between(lo, hi)(x) { MarkMember(window, true, x); }
    FilterAll(v, Between(lo, hi));
    FilterConcat(u, v, Between(lo, hi));
    SortFilter(u + v, Between(lo, hi));
  }

  /** Reading the seed back ordered by time changes nothing. */
  lemma {:induction false} MergedSortsSeed<K>(seed: seq<Stamped<K>>, window: seq<Stamped<K>>)
    ensures Merged(SortByTime(seed), window) == Merged(seed, window)
  {
    SortRetag(seed, (k: K) => Sig(k, false));
    SortPrefix(Mark(seed, false), Mark(window, true));
  }

  // ---- what is emitted, described without the algorithm ------------------------------------

  /**
   A gap is emitted exactly when it is a counted gap of the whole log and either a window signal
   stands at its start or no synced signal stands at its end.
   */
  lemma {:induction false} EmittedIsTouched<K>(synced: seq<Stamped<K>>, window: seq<Stamped<K>>, idle: int, a: int, b: int)
    ensures HasGap(EmittedOf(Merged(synced, window), idle), a, b) <==>
            Adjacent(synced + window, idle, a, b) && (HasTime(window, a) || !HasTime(synced, b))
  {
    var all := Mark(synced, false) + Mark(window, true);
    var s := SortByTime(all);
    SortSorted(all);
    assert SeedFirst(all) by { }
    SortKeepsSeedFirst(all);
    EmittedOfSorted(s, idle, a, b);
    TimesOfMerged(synced, window, a);
    TimesOfMerged(synced, window, b);
    AdjacentOfMerged(synced, window, idle, a, b);
  }

  ghost predicate HasTimeFrom<K>(s: seq<Stamped<Sig<K>>>, fromWindow: bool, t: int) {
    exists i :: 0 <= i < |s| && s[i].at == t && s[i].tag.fromWindow == fromWindow
  }

  /** At equal times, seed signals come before window signals. */
  ghost predicate SeedFirst<K>(s: seq<Stamped<Sig<K>>>) {
    forall i, j :: 0 <= i < j < |s| && s[i].at == s[j].at && s[i].tag.fromWindow ==> s[j].tag.fromWindow
  }

  lemma {:induction false} SortKeepsSeedFirst<K>(s: seq<Stamped<Sig<K>>>)
    requires SeedFirst(s)
    ensures SeedFirst(SortByTime(s))
  {
    if s != [] {
      var t, x := s[..|s| - 1], s[|s| - 1];
      SortKeepsSeedFirst(t);
      SortSorted(t);
      var r := SortByTime(t);
      forall i | 0 <= i < |r| && r[i].at == x.at && r[i].tag.fromWindow ensures x.tag.fromWindow {
        SortMember(t, r[i]);
        assert r[i] in t;
        var j :| 0 <= j < |t| && t[j] == r[i];
      }
      InsertKeepsSeedFirst(r, x);
    }
  }

  lemma {:induction false} InsertKeepsSeedFirst<K>(r: seq<Stamped<Sig<K>>>, x: Stamped<Sig<K>>)
    requires Sorted(r) && SeedFirst(r)
    requires forall i :: 0 <= i < |r| && r[i].at == x.at && r[i].tag.fromWindow ==> x.tag.fromWindow
    ensures SeedFirst(Insert(r, x))
  {
    if r != [] && r[|r| - 1].at > x.at {
      var t, l := r[..|r| - 1], r[|r| - 1];
      InsertKeepsSeedFirst(t, x);
      var ins := Insert(t, x);
      forall i | 0 <= i < |ins| && ins[i].at == l.at && ins[i].tag.fromWindow ensures l.tag.fromWindow {
        InsertMember(t, x, ins[i]);
        assert ins[i] in ins;
        var j :| 0 <= j < |t| && t[j] == ins[i];
      }
    }
  }

  ghost predicate EmittedAt<K>(s: seq<Stamped<Sig<K>>>, idle: int, a: int, b: int) {
    Adjacent(s, idle, a, b) && (HasTimeFrom(s, true, a) || !HasTimeFrom(s, false, b))
  }

  lemma {:induction false} EmittedOfSorted<K>(s: seq<Stamped<Sig<K>>>, idle: int, a: int, b: int)
    requires Sorted(s) && SeedFirst(s)
    ensures HasGap(EmittedOf(s, idle), a, b) <==> EmittedAt(s, idle, a, b)
  {
    if |s| < 2 {
      forall x, y | x in s && y in s ensures x == y {}
    } else {
      var t, l := s[..|s| - 1], s[|s| - 1];
      hide EmittedOf;
      hide EmittedAt;
      assert s == t + [l];
      EmittedOfSorted(t, idle, a, b);
      EmittedSnoc(t, l, idle);
      SnocEmittedAt(t, l, idle, a, b);
      var p := t[|t| - 1];
      HasGapSnoc(EmittedOf(t, idle), Gap(p.at, l.at, p.tag.key), a, b);
      hide HasGap;
    }
  }

  lemma {:induction false} SnocEmittedAt<K>(t: seq<Stamped<Sig<K>>>, l: Stamped<Sig<K>>, idle: int, a: int, b: int)
    requires t != [] && Sorted(t + [l]) && SeedFirst(t + [l])
    ensures var p := t[|t| - 1];
            EmittedAt(t + [l], idle, a, b) <==>
            EmittedAt(t, idle, a, b) ||
            (a == p.at && b == l.at && Counts(b - a, idle) && (p.tag.fromWindow || l.tag.fromWindow))
  {
    var s, p := t + [l], t[|t| - 1];
    SnocAdjacent(t, l, idle, a, b);
    LastPlaced(t, l, a, b);
    SnocTimeFrom(t, l, true, a);
    SnocTimeFrom(t, l, false, b);
    if Adjacent(t, idle, a, b) { AdjacentIsWithin(t, l, idle, a, b); }
    hide Adjacent;
    hide HasTimeFrom;
    hide Sorted;
    hide SeedFirst;
  }

  /** A pair of neighbours before `l` ends no later than `l`, at a seed signal if `l` is a seed signal there. */
  lemma {:induction false} AdjacentIsWithin<K>(t: seq<Stamped<Sig<K>>>, l: Stamped<Sig<K>>, idle: int, a: int, b: int)
    requires t != [] && Sorted(t + [l]) && SeedFirst(t + [l]) && Adjacent(t, idle, a, b)
    ensures a < b <= t[|t| - 1].at <= l.at
    ensures b == l.at && !l.tag.fromWindow ==> HasTimeFrom(t, false, b)
  {
    var s := t + [l];
    var y :| y in t && y.at == b;
    var i :| 0 <= i < |t| && t[i] == y;
    assert s[i] == y && s[|t| - 1] == t[|t| - 1] && s[|t|] == l;
  }

  /** What stands at the time of the last signal before `l`, and at `l`'s own. */
  lemma {:induction false} LastPlaced<K>(t: seq<Stamped<Sig<K>>>, l: Stamped<Sig<K>>, a: int, b: int)
    requires t != [] && Sorted(t + [l]) && SeedFirst(t + [l])
    ensures var p := t[|t| - 1];
            a == p.at && b == l.at && a < b ==>
              !HasTimeFrom(t, false, b) && (HasTimeFrom(t, true, a) <==> p.tag.fromWindow)
  {
    var s, p := t + [l], t[|t| - 1];
    assert s[|t| - 1] == p && s[|t|] == l;
    forall i | 0 <= i < |t| ensures s[i] == t[i] && t[i].at <= p.at {}
    if a == p.at && HasTimeFrom(t, true, a) {
      var i :| 0 <= i < |t| && t[i].at == a && t[i].tag.fromWindow;
      assert s[i].tag.fromWindow;
    }
  }

  lemma {:induction false} SnocTimeFrom<K>(t: seq<Stamped<Sig<K>>>, l: Stamped<Sig<K>>, w: bool, c: int)
    ensures HasTimeFrom(t + [l], w, c) <==> HasTimeFrom(t, w, c) || (c == l.at && w == l.tag.fromWindow)
  {
    var s := t + [l];
    assert s[|t|] == l;
    if HasTimeFrom(t, w, c) {
      var i :| 0 <= i < |t| && t[i].at == c && t[i].tag.fromWindow == w;
      assert s[i] == t[i];
    }
  }

  lemma {:induction false} TimesOfMerged<K>(synced: seq<Stamped<K>>, window: seq<Stamped<K>>, t: int)
    ensures var s := Merged(synced, window);
            (HasTimeFrom(s, true, t) <==> HasTime(window, t)) &&
            (HasTimeFrom(s, false, t) <==> HasTime(synced, t))
  {
    MergedTimesFrom(synced, window, true, t);
    MergedTimesFrom(synced, window, false, t);
  }

  lemma {:induction false} MergedTimesFrom<K>(synced: seq<Stamped<K>>, window: seq<Stamped<K>>, w: bool, t: int)
    ensures HasTimeFrom(Merged(synced, window), w, t) <==> HasTime(if w then window else synced, t)
  {
    var s, part := Merged(synced, window), if w then window else synced;
    forall x: Stamped<Sig<K>> | x.tag.fromWindow == w
      ensures x in s <==> Stamped(x.at, x.tag.key) in part
    {
      SortMember(Mark(synced, false) + Mark(window, true), x);
      MarkMember(synced, false, x);
      MarkMember(window, true, x);
    }
    if HasTimeFrom(s, w, t) {
      var i :| 0 <= i < |s| && s[i].at == t && s[i].tag.fromWindow == w;
      assert s[i] in s;
      assert Stamped(t, s[i].tag.key) in part;
    }
    if HasTime(part, t) {
      var x :| x in part && x.at == t;
      var y := Stamped(t, Sig(x.tag, w));
      assert Stamped(y.at, y.tag.key) in part;
      assert y in s;
      var i :| 0 <= i < |s| && s[i] == y;
    }
  }

  lemma {:induction false} AdjacentOfMerged<K>(synced: seq<Stamped<K>>, window: seq<Stamped<K>>, idle: int, a: int, b: int)
    ensures Adjacent(Merged(synced, window), idle, a, b) <==> Adjacent(synced + window, idle, a, b)
  {
    forall t ensures HasTime(Merged(synced, window), t) <==> HasTime(synced + window, t) {
      TimesOfMerged(synced, window, t);
    }
    AdjacentByTimes(Merged(synced, window), synced + window, idle, a, b);
  }

  /** Adjacency only depends on which times occur. */
  lemma {:induction false} AdjacentByTimes<K, L>(s: seq<Stamped<K>>, r: seq<Stamped<L>>, idle: int, a: int, b: int)
    requires forall t :: HasTime(s, t) <==> HasTime(r, t)
    ensures Adjacent(s, idle, a, b) <==> Adjacent(r, idle, a, b)
  {
    forall x | x in s ensures HasTime(s, x.at) && HasTime(r, x.at) {}
    forall x | x in r ensures HasTime(r, x.at) && HasTime(s, x.at) {}
  }

  // ---- every windowing gives the one-shot decomposition ------------------------------------

  /** A flush that appends only later signals emits exactly the gaps it adds. */
  lemma {:induction false} FlushAddsItsGaps<K>(u: seq<Stamped<K>>, v: seq<Stamped<K>>, idle: int)
    ensures GapsOf(u + v, idle) == GapsOf(u, idle) + EmittedOf(Mark(u, false) + Mark(v, true), idle)
  {
    hide EmittedOf;
    hide GapsOf;
    hide Mark;
    if v == [] {
      EmptyFlush(u, idle);
    } else {
      var w, l := v[..|v| - 1], v[|v| - 1];
      FlushAddsItsGaps(u, w, idle);
      assert v == w + [l];
      Regroup(u, w, [l]);
      MarkedSnoc(u, w, l);
      if u + w != [] {
        MarkedLast(u, w);
        FlushOneMore(u + w, Mark(u, false) + Mark(w, true), l, GapsOf(u, idle), idle);
      } else {
        LoneSignal(l, idle);
        assert u == [] && w == [] && v == [l];
      }
    }
  }

  lemma {:induction false} EmptyFlush<K>(u: seq<Stamped<K>>, idle: int)
    ensures GapsOf(u + [], idle) == GapsOf(u, idle) + EmittedOf(Mark(u, false) + Mark([], true), idle)
  {
    SeedAloneEmitsNothing(u, idle);
    hide EmittedOf;
    hide GapsOf;
    assert u + [] == u && Mark(u, false) + Mark([], true) == Mark(u, false);
    assert GapsOf(u, idle) + [] == GapsOf(u, idle);
  }

  lemma {:induction false} LoneSignal<K>(l: Stamped<K>, idle: int)
    ensures GapsOf([] + [l], idle) == GapsOf<K>([], idle) + EmittedOf(Mark([], false) + Mark([l], true), idle)
  {
  }

  lemma {:induction false} MarkedSnoc<K>(u: seq<Stamped<K>>, w: seq<Stamped<K>>, l: Stamped<K>)
    ensures Mark(u, false) + Mark(w + [l], true) == Mark(u, false) + Mark(w, true) + [Stamped(l.at, Sig(l.tag, true))]
  {
    assert Mark(w + [l], true) == Mark(w, true) + [Stamped(l.at, Sig(l.tag, true))];
  }

  lemma {:induction false} MarkedLast<K>(u: seq<Stamped<K>>, w: seq<Stamped<K>>)
    requires u + w != []
    ensures var t, m := u + w, Mark(u, false) + Mark(w, true);
            |m| == |t| && m[|m| - 1].tag.key == t[|t| - 1].tag && m[|m| - 1].at == t[|t| - 1].at
  {
  }

  lemma {:induction false} FlushOneMore<K>(t: seq<Stamped<K>>, m: seq<Stamped<Sig<K>>>, l: Stamped<K>, base: seq<Gap<K>>, idle: int)
    requires t != [] && |m| == |t|
    requires m[|m| - 1].tag.key == t[|t| - 1].tag && m[|m| - 1].at == t[|t| - 1].at
    requires GapsOf(t, idle) == base + EmittedOf(m, idle)
    ensures GapsOf(t + [l], idle) == base + EmittedOf(m + [Stamped(l.at, Sig(l.tag, true))], idle)
  {
    EmittedSnoc(m, Stamped(l.at, Sig(l.tag, true)), idle);
    SnocGaps(t, l, idle, 0, 0);
  }

  lemma {:induction false} SeedAloneEmitsNothing<K>(u: seq<Stamped<K>>, idle: int)
    ensures EmittedOf(Mark(u, false), idle) == []
  {
    if |u| >= 2 {
      SeedAloneEmitsNothing(u[..|u| - 1], idle);
      assert Mark(u, false)[..|u| - 1] == Mark(u[..|u| - 1], false);
    }
  }

  function Concat<T>(parts: seq<seq<T>>): seq<T> {
    if parts == [] then [] else Concat(parts[..|parts| - 1]) + parts[|parts| - 1]
  }

  /** What a run of flushes emits, each seeded from everything synced before it. */
  function Incremental<K>(windows: seq<seq<Stamped<K>>>, idle: int): seq<Gap<K>> {
    if windows == [] then []
    else
      var n := |windows| - 1;
      Incremental(windows[..n], idle) + EmittedOf(Merged(Concat(windows[..n]), windows[n]), idle)
  }

  /** No window holds a signal older than one already flushed. */
  ghost predicate Chronological<K>(windows: seq<seq<Stamped<K>>>) {
    forall n: nat, x, y :: n < |windows| && x in Concat(windows[..n]) && y in windows[n] ==> x.at <= y.at
  }

  /** However the log is cut into flushes, together they emit the counted gaps of the whole log. */
  lemma {:induction false} WindowingInvariant<K>(windows: seq<seq<Stamped<K>>>, idle: int)
    requires Chronological(windows)
    ensures Incremental(windows, idle) == GapsOf(SortByTime(Concat(windows)), idle)
  {
    if windows != [] {
      var n := |windows| - 1;
      var ws, w := windows[..n], windows[n];
      assert Chronological(ws) by {
        forall k: nat, x: Stamped<K>, y: Stamped<K> | k < n && x in Concat(ws[..k]) && y in ws[k] ensures x.at <= y.at {
          assert ws[..k] == windows[..k];
        }
      }
      WindowingInvariant(ws, idle);
      FlushLater(Concat(ws), w, idle);
    }
  }

  lemma {:induction false} FlushLater<K>(u: seq<Stamped<K>>, w: seq<Stamped<K>>, idle: int)
    requires forall x, y :: x in u && y in w ==> x.at <= y.at
    ensures GapsOf(SortByTime(u + w), idle) == GapsOf(SortByTime(u), idle) + EmittedOf(Merged(u, w), idle)
  {
    SortChronological(u, w);
    FlushAddsItsGaps(SortByTime(u), SortByTime(w), idle);
    MergedChronological(u, w);
  }

  lemma {:induction false} MergedChronological<K>(u: seq<Stamped<K>>, w: seq<Stamped<K>>)
    requires forall x, y :: x in u && y in w ==> x.at <= y.at
    ensures Merged(u, w) == Mark(SortByTime(u), false) + Mark(SortByTime(w), true)
  {
    forall x, y | x in Mark(u, false) && y in Mark(w, true) ensures x.at <= y.at {
      MarkMember(u, false, x);
      MarkMember(w, true, y);
      assert Stamped(x.at, x.tag.key) in u && Stamped(y.at, y.tag.key) in w;
    }
    SortChronological(Mark(u, false), Mark(w, true));
    SortRetag(u, (k: K) => Sig(k, false));
    SortRetag(w, (k: K) => Sig(k, true));
  }
}
