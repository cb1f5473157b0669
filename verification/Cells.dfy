/** Cutting a sorted stream into cells of time: what the cells keep, and what falls between them. */
module Cells {
  import opened Prelude
  import opened Timeline
  import opened MapSums
  import opened Accounting

  /** Each cell is one stretch of the stream: between two of its elements there is no other cell. */
  ghost predicate IsStretches<K, C>(s: seq<Stamped<K>>, cell: int -> C) {
    forall i, j, n :: 0 <= i <= j <= n < |s| && cell(s[i].at) == cell(s[n].at) ==> cell(s[j].at) == cell(s[i].at)
  }

  function InCell<K, C(==)>(cell: int -> C, c: C): Stamped<K> -> bool {
    (x: Stamped<K>) => cell(x.at) == c
  }

  function Crosses<K, C(==)>(cell: int -> C): Gap<K> -> bool {
    (g: Gap<K>) => cell(g.start) != cell(g.end)
  }

  /** The counted gaps inside cells, keyed by their cell. */
  function InnerGaps<K, C(==)>(s: seq<Stamped<K>>, cell: int -> C, idle: int): seq<Gap<C>> {
    if |s| < 2 then []
    else
      var a, b := s[|s| - 2].at, s[|s| - 1].at;
      if Counts(b - a, idle) && cell(a) == cell(b)
      then InnerGaps(s[..|s| - 1], cell, idle) + [Gap(a, b, cell(a))]
      else InnerGaps(s[..|s| - 1], cell, idle)
  }

  lemma {:induction false} CrossingSnoc<K, C>(gaps: seq<Gap<K>>, g: Gap<K>, cell: int -> C)
    ensures SumSeconds(Filter(gaps + [g], Crosses(cell))) ==
            SumSeconds(Filter(gaps, Crosses(cell))) + if cell(g.start) == cell(g.end) then 0 else g.Seconds()
  {
    hide SumSeconds;
    hide Filter;
    hide WholeSeconds;
    FilterSnoc(gaps, g, Crosses(cell));
    SumSecondsSnoc(Filter(gaps, Crosses(cell)), g);
  }

  /** One more counted gap: inside its cell, or crossing between two. */
  ghost predicate OneGapMore<K, C>(s: seq<Stamped<K>>, cell: int -> C, idle: int, g: Gap<K>)
    requires |s| >= 2
  {
    var t := s[..|s| - 1];
    && GapsOf(s, idle) == GapsOf(t, idle) + [g]
    && InnerGaps(s, cell, idle) ==
       if cell(g.start) == cell(g.end) then InnerGaps(t, cell, idle) + [Gap(g.start, g.end, cell(g.start))]
       else InnerGaps(t, cell, idle)
  }

  lemma {:induction false} OneGapAddsUp<K, C>(s: seq<Stamped<K>>, cell: int -> C, idle: int, g: Gap<K>)
    requires |s| >= 2 && OneGapMore(s, cell, idle, g)
    ensures var t := s[..|s| - 1];
            SumSeconds(GapsOf(s, idle)) - SumSeconds(InnerGaps(s, cell, idle)) -
            SumSeconds(Filter(GapsOf(s, idle), Crosses(cell))) ==
            SumSeconds(GapsOf(t, idle)) - SumSeconds(InnerGaps(t, cell, idle)) -
            SumSeconds(Filter(GapsOf(t, idle), Crosses(cell)))
  {
    hide SumSeconds;
    hide Filter;
    hide WholeSeconds;
    hide GapsOf;
    hide InnerGaps;
    var t := s[..|s| - 1];
    SumSecondsSnoc(GapsOf(t, idle), g);
    SumSecondsSnoc(InnerGaps(t, cell, idle), Gap(g.start, g.end, cell(g.start)));
    CrossingSnoc(GapsOf(t, idle), g, cell);
  }

  lemma {:induction false} LastGap<K, C>(s: seq<Stamped<K>>, cell: int -> C, idle: int)
    requires |s| >= 2
    ensures var t, a, b := s[..|s| - 1], s[|s| - 2], s[|s| - 1];
            if Counts(b.at - a.at, idle) then OneGapMore(s, cell, idle, Gap(a.at, b.at, a.tag))
            else GapsOf(s, idle) == GapsOf(t, idle) && InnerGaps(s, cell, idle) == InnerGaps(t, cell, idle)
  {
  }

  lemma {:induction false} NoGaps<K, C>(s: seq<Stamped<K>>, cell: int -> C, idle: int)
    requires |s| < 2
    ensures SumSeconds(GapsOf(s, idle)) == 0 == SumSeconds(InnerGaps(s, cell, idle))
    ensures SumSeconds(Filter(GapsOf(s, idle), Crosses(cell))) == 0
  {
    assert GapsOf(s, idle) == [];
  }

  /** Every counted second is inside a cell or crosses between two. */
  lemma {:induction false} InnerAndCrossing<K, C>(s: seq<Stamped<K>>, cell: int -> C, idle: int)
    ensures SumSeconds(GapsOf(s, idle)) ==
            SumSeconds(InnerGaps(s, cell, idle)) + SumSeconds(Filter(GapsOf(s, idle), Crosses(cell)))
  {
    hide *;
    if |s| < 2 {
      NoGaps(s, cell, idle);
    } else {
      var t, a, b := s[..|s| - 1], s[|s| - 2], s[|s| - 1];
      InnerAndCrossing(t, cell, idle);
      LastGap(s, cell, idle);
      if Counts(b.at - a.at, idle) {
        var g := Gap(a.at, b.at, a.tag);
        OneGapAddsUp(s, cell, idle, g);
      }
    }
  }

  lemma {:induction false} GapsSnoc<K>(t: seq<Stamped<K>>, l: Stamped<K>, idle: int)
    ensures SumSeconds(GapsOf(t + [l], idle)) ==
            SumSeconds(GapsOf(t, idle)) + if t == [] then 0 else Credit(l.at - t[|t| - 1].at, idle)
  {
    if t != [] { GapSumSnoc(t, l, idle); }
  }

  /** Of the elements in the same cell as the next one, the last is the last of all, if there is any. */
  lemma {:induction false} LastOfCell<K, C>(t: seq<Stamped<K>>, l: Stamped<K>, cell: int -> C)
    requires t != [] && IsStretches(t + [l], cell)
    ensures var mine := Filter(t, InCell(cell, cell(l.at)));
            if cell(t[|t| - 1].at) == cell(l.at) then mine != [] && mine[|mine| - 1] == t[|t| - 1] else mine == []
  {
    var s, p := t + [l], t[|t| - 1];
    assert s[|t| - 1] == p && s[|t|] == l;
    forall i | 0 <= i < |t| && cell(t[i].at) == cell(l.at) ensures cell(p.at) == cell(l.at) {
      assert s[i] == t[i];
    }
    if cell(p.at) != cell(l.at) {
      forall x | x in t ensures !InCell(cell, cell(l.at))(x) {
        var i :| 0 <= i < |t| && t[i] == x;
      }
      FilterNone(t, InCell(cell, cell(l.at)));
    }
  }

  /** The time of a cell is that of its own signals on their own. */
  lemma {:induction false} CellTime<K, C>(s: seq<Stamped<K>>, cell: int -> C, idle: int, c: C)
    requires IsStretches(s, cell)
    ensures Get(PerKey(InnerGaps(s, cell, idle)), c) == SumSeconds(GapsOf(Filter(s, InCell(cell, c)), idle))
  {
    if |s| < 2 {
      assert |Filter(s, InCell(cell, c))| < 2;
    } else {
      var t, l := s[..|s| - 1], s[|s| - 1];
      assert s == t + [l];
      PrefixStretches(t, l, cell);
      CellTime(t, cell, idle, c);
      CellTimeSnoc(t, l, cell, idle, c);
    }
  }

  lemma {:induction false} PrefixStretches<K, C>(t: seq<Stamped<K>>, l: Stamped<K>, cell: int -> C)
    requires IsStretches(t + [l], cell)
    ensures IsStretches(t, cell)
  {
    var s := t + [l];
    forall i, j, n | 0 <= i <= j <= n < |t| && cell(t[i].at) == cell(t[n].at) ensures cell(t[j].at) == cell(t[i].at) {
      assert s[i] == t[i] && s[j] == t[j] && s[n] == t[n];
    }
  }

  lemma {:induction false} CellTimeSnoc<K, C>(t: seq<Stamped<K>>, l: Stamped<K>, cell: int -> C, idle: int, c: C)
    requires t != [] && IsStretches(t + [l], cell)
    requires Get(PerKey(InnerGaps(t, cell, idle)), c) == SumSeconds(GapsOf(Filter(t, InCell(cell, c)), idle))
    ensures Get(PerKey(InnerGaps(t + [l], cell, idle)), c) == SumSeconds(GapsOf(Filter(t + [l], InCell(cell, c)), idle))
  {
    InnerSnoc(t, l, cell, idle, c);
    FilterSnoc(t, l, InCell(cell, c));
    if cell(l.at) == c {
      LastOfCell(t, l, cell);
      GapsSnoc(Filter(t, InCell(cell, c)), l, idle);
    }
  }

  lemma {:induction false} InnerSnoc<K, C>(t: seq<Stamped<K>>, l: Stamped<K>, cell: int -> C, idle: int, c: C)
    requires t != []
    ensures var a := t[|t| - 1].at;
            Get(PerKey(InnerGaps(t + [l], cell, idle)), c) ==
            Get(PerKey(InnerGaps(t, cell, idle)), c) +
            if cell(a) == cell(l.at) == c then Credit(l.at - a, idle) else 0
  {
    assert (t + [l])[..|t|] == t;
    var a := t[|t| - 1].at;
  }

}
