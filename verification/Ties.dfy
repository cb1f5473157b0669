/**
 Totals over the gaps of a sorted stream, where each gap's worth depends on what the sample that opens
 it carries: exactly when the order in which tied samples arrive can change such a total.
 */
module Ties {
  import opened Prelude
  import opened Timeline

  /** The worth of every gap of a sorted stream, added up. */
  function Opened<T>(s: seq<Stamped<T>>, worth: (T, int) -> int): int {
    if |s| < 2 then 0
    else Opened(s[..|s| - 1], worth) + worth(s[|s| - 2].tag, s[|s| - 1].at - s[|s| - 2].at)
  }

  /** Samples at one time open nothing between them. */
  ghost predicate IgnoresTies<T(!new)>(worth: (T, int) -> int) {
    forall t: T :: worth(t, 0) == 0
  }

  /** Two samples tie ahead of a next-later time, and the gap up to it is worth different amounts to them. */
  ghost predicate TieMatters<T>(samples: seq<Stamped<T>>, worth: (T, int) -> int) {
    exists x, y, z :: x in samples && y in samples && z in samples && Matters(samples, worth, x, y, z)
  }

  ghost predicate Matters<T>(samples: seq<Stamped<T>>, worth: (T, int) -> int, x: Stamped<T>, y: Stamped<T>, z: Stamped<T>) {
    && x.at == y.at < z.at
    && (forall o :: o in samples ==> !(x.at < o.at < z.at))
    && worth(x.tag, z.at - x.at) != worth(y.tag, z.at - x.at)
  }

  ghost predicate OrderFree<T(!new)>(samples: seq<Stamped<T>>, worth: (T, int) -> int) {
    forall other: seq<Stamped<T>> :: multiset(other) == multiset(samples) ==>
      Opened(SortByTime(other), worth) == Opened(SortByTime(samples), worth)
  }

  lemma {:induction false} OpenedSnoc<T>(s: seq<Stamped<T>>, x: Stamped<T>, worth: (T, int) -> int)
    requires s != []
    ensures Opened(s + [x], worth) == Opened(s, worth) + worth(s[|s| - 1].tag, x.at - s[|s| - 1].at)
  {
    assert (s + [x])[..|s|] == s;
  }

  // ---- no tie that matters: no order matters -----------------------------------------------

  /** The same times, and gap by gap the same worth. */
  ghost predicate SameWorth<T>(a: seq<Stamped<T>>, b: seq<Stamped<T>>, worth: (T, int) -> int) {
    && |a| == |b|
    && (forall i :: 0 <= i < |a| ==> a[i].at == b[i].at)
    && (forall i :: 0 < i < |a| ==> SameGap(a, b, worth, i))
  }

  ghost predicate SameGap<T>(a: seq<Stamped<T>>, b: seq<Stamped<T>>, worth: (T, int) -> int, i: nat)
    requires 0 < i < |a| == |b|
  {
    worth(a[i - 1].tag, a[i].at - a[i - 1].at) == worth(b[i - 1].tag, a[i].at - a[i - 1].at)
  }

  lemma {:induction false} SameWorthPrefix<T>(a: seq<Stamped<T>>, b: seq<Stamped<T>>, worth: (T, int) -> int)
    requires SameWorth(a, b, worth) && a != []
    ensures SameWorth(a[..|a| - 1], b[..|b| - 1], worth)
  {
    var n := |a| - 1;
    forall i | 0 < i < n ensures SameGap(a[..n], b[..n], worth, i) { assert SameGap(a, b, worth, i); }
  }

  lemma {:induction false} SameWorthSameTotal<T>(a: seq<Stamped<T>>, b: seq<Stamped<T>>, worth: (T, int) -> int)
    requires SameWorth(a, b, worth)
    ensures Opened(a, worth) == Opened(b, worth)
  {
    if |a| >= 2 {
      hide Opened;
      var n := |a| - 1;
      SameWorthPrefix(a, b, worth);
      SameWorthSameTotal(a[..n], b[..n], worth);
      assert a == a[..n] + [a[n]] && b == b[..n] + [b[n]];
      OpenedSnoc(a[..n], a[n], worth);
      OpenedSnoc(b[..n], b[n], worth);
      assert SameGap(a, b, worth, n);
    }
  }

  lemma {:induction false} SortedMembers<T>(samples: seq<Stamped<T>>, other: seq<Stamped<T>>, i: nat)
    requires multiset(other) == multiset(samples) && i < |other|
    ensures SortByTime(other)[i] in samples
  {
    SortMember(other, SortByTime(other)[i]);
    assert SortByTime(other)[i] in multiset(samples);
  }

  /** Neighbours of a sorted stream have no sample between them. */
  lemma {:induction false} NothingBetween<T>(samples: seq<Stamped<T>>, i: nat, o: Stamped<T>)
    requires 0 < i < |samples| && o in samples
    ensures var s := SortByTime(samples); !(s[i - 1].at < o.at < s[i].at)
  {
    var s := SortByTime(samples);
    SortSorted(samples);
    SortMember(samples, o);
    var j :| 0 <= j < |s| && s[j] == o;
  }

  lemma {:induction false} SamePlaces<T>(a: seq<Stamped<T>>, b: seq<Stamped<T>>)
    requires multiset(a) == multiset(b)
    ensures |SortByTime(a)| == |SortByTime(b)|
    ensures forall i :: 0 <= i < |a| ==> SortByTime(a)[i].at == SortByTime(b)[i].at
  {
    SameLength(a, b);
    SortedTimesIgnoreOrder(a, b);
    forall i | 0 <= i < |a| ensures SortByTime(a)[i].at == SortByTime(b)[i].at {
      assert Untag(SortByTime(a))[i].at == Untag(SortByTime(b))[i].at;
    }
  }

  lemma {:induction false} SameGapWorth<T(!new)>(samples: seq<Stamped<T>>, other: seq<Stamped<T>>, worth: (T, int) -> int, i: nat)
    requires multiset(other) == multiset(samples) && IgnoresTies(worth) && !TieMatters(samples, worth)
    requires 0 < i < |samples| == |other|
    ensures SameGap(SortByTime(samples), SortByTime(other), worth, i)
  {
    var s, r := SortByTime(samples), SortByTime(other);
    SamePlaces(samples, other);
    SortSorted(samples);
    SortedMembers(samples, samples, i - 1);
    SortedMembers(samples, samples, i);
    SortedMembers(samples, other, i - 1);
    forall o | o in samples ensures !(s[i - 1].at < o.at < s[i].at) { NothingBetween(samples, i, o); }
    assert !Matters(samples, worth, s[i - 1], r[i - 1], s[i]);
  }

  lemma {:induction false} NoTieNoOrder<T(!new)>(samples: seq<Stamped<T>>, worth: (T, int) -> int)
    requires IgnoresTies(worth) && !TieMatters(samples, worth)
    ensures OrderFree(samples, worth)
  {
    forall other: seq<Stamped<T>> | multiset(other) == multiset(samples)
      ensures Opened(SortByTime(other), worth) == Opened(SortByTime(samples), worth)
    {
      SamePlaces(samples, other);
      SameLength(samples, other);
      forall i | 0 < i < |samples| { SameGapWorth(samples, other, worth, i); }
      SameWorthSameTotal(SortByTime(samples), SortByTime(other), worth);
    }
  }

  // ---- a tie that matters: two orders that differ ------------------------------------------

  function NotAfter<T>(t: int): Stamped<T> -> bool {
    (x: Stamped<T>) => x.at <= t
  }

  function After<T>(t: int): Stamped<T> -> bool {
    (x: Stamped<T>) => x.at > t
  }

  /** In a sorted stream a new sample goes behind all that are not later. */
  lemma {:induction false} InsertCuts<T>(s: seq<Stamped<T>>, x: Stamped<T>)
    requires Sorted(s)
    ensures Insert(s, x) == Filter(s, NotAfter(x.at)) + [x] + Filter(s, After(x.at))
  {
    if s == [] || s[|s| - 1].at <= x.at {
      forall y | y in s ensures y.at <= x.at {}
      FilterAll(s, NotAfter(x.at));
      FilterNone(s, After(x.at));
      assert s + [x] + [] == s + [x];
    } else {
      var t, l := s[..|s| - 1], s[|s| - 1];
      InsertCuts(t, x);
      Regroup(Filter(t, NotAfter(x.at)) + [x], Filter(t, After(x.at)), [l]);
    }
  }

  /** Sorting with two tied samples last: they stand next to each other, in that order. */
  lemma {:induction false} TiedLast<T>(rest: seq<Stamped<T>>, x: Stamped<T>, y: Stamped<T>)
    requires x.at == y.at
    ensures var s := SortByTime(rest);
            SortByTime(rest + [x, y]) == Filter(s, NotAfter(x.at)) + [x] + [y] + Filter(s, After(x.at))
  {
    var s := SortByTime(rest);
    SortSorted(rest);
    assert rest + [x, y] == (rest + [x]) + [y];
    SortSnoc(rest, x);
    SortSnoc(rest + [x], y);
    InsertCuts(s, x);
    InsertSorted(s, x);
    InsertCuts(Insert(s, x), y);
    CutTwice(s, x);
  }

  lemma {:induction false} CutTwice<T>(s: seq<Stamped<T>>, x: Stamped<T>)
    requires Sorted(s)
    ensures Filter(Insert(s, x), NotAfter(x.at)) == Filter(s, NotAfter(x.at)) + [x]
    ensures Filter(Insert(s, x), After(x.at)) == Filter(s, After(x.at))
  {
    var u, v := Filter(s, NotAfter(x.at)), Filter(s, After(x.at));
    InsertCuts(s, x);
    forall y | y in u ensures y.at <= x.at { FilterMember(s, NotAfter(x.at), y); }
    forall y | y in v ensures y.at > x.at { FilterMember(s, After(x.at), y); }
    FilterConcat(u + [x], v, NotAfter(x.at));
    FilterConcat(u + [x], v, After(x.at));
    FilterAll(u + [x], NotAfter(x.at));
    FilterNone(v, NotAfter(x.at));
    FilterNone(u + [x], After(x.at));
    FilterAll(v, After(x.at));
  }

  lemma {:induction false} OpenedConcatSnoc<T>(a: seq<Stamped<T>>, b: seq<Stamped<T>>, l: Stamped<T>, worth: (T, int) -> int)
    requires a != [] && b != [] && a[|a| - 1] == b[|b| - 1]
    ensures Opened(a + [l], worth) - Opened(a, worth) == Opened(b + [l], worth) - Opened(b, worth)
  {
    OpenedSnoc(a, l, worth);
    OpenedSnoc(b, l, worth);
  }

  lemma {:induction false} SameLastOf<T>(u: seq<T>, m: T, w: seq<T>)
    ensures (u + [m] + w)[|u| + |w|] == ([m] + w)[|w|]
  {
  }

  lemma {:induction false} OpenedConcat<T>(u: seq<Stamped<T>>, m: Stamped<T>, v: seq<Stamped<T>>, worth: (T, int) -> int)
    ensures Opened(u + [m] + v, worth) == Opened(u + [m], worth) + Opened([m] + v, worth)
  {
    if v == [] {
      assert u + [m] + v == u + [m] && [m] + v == [m];
    } else {
      hide Opened;
      var w, l := v[..|v| - 1], v[|v| - 1];
      OpenedConcat(u, m, w, worth);
      SameLastOf(u, m, w);
      OpenedConcatSnoc(u + [m] + w, [m] + w, l, worth);
      Regroup(u + [m], w, [l]);
      Regroup([m], w, [l]);
      assert v == w + [l];
    }
  }

  lemma {:induction false} OpenedHead<T>(m: Stamped<T>, v: seq<Stamped<T>>, worth: (T, int) -> int)
    requires v != []
    ensures Opened([m] + v, worth) == worth(m.tag, v[0].at - m.at) + Opened(v, worth)
  {
    OpenedConcat([m], v[0], v[1..], worth);
    assert v == [v[0]] + v[1..];
    Regroup([m], [v[0]], v[1..]);
    OpenedSnoc([m], v[0], worth);
    assert [] + [v[0]] + v[1..] == v;
  }

  /** The total of a stream in which `x` stands right before `y` at one time. */
  lemma {:induction false} TiedTotal<T(!new)>(u: seq<Stamped<T>>, x: Stamped<T>, y: Stamped<T>, v: seq<Stamped<T>>,
                                              worth: (T, int) -> int)
    requires x.at == y.at && v != [] && IgnoresTies(worth)
    ensures Opened(u + [x] + [y] + v, worth) ==
            (if u == [] then 0 else Opened(u, worth) + worth(u[|u| - 1].tag, x.at - u[|u| - 1].at)) +
            worth(y.tag, v[0].at - y.at) + Opened(v, worth)
  {
    OpenedConcat(u + [x], y, v, worth);
    OpenedSnoc(u + [x], y, worth);
    OpenedHead(y, v, worth);
    if u != [] { OpenedSnoc(u, x, worth); } else { assert u + [x] == [x]; }
  }

  lemma {:induction false} TakeOne<T>(samples: seq<T>, x: T) returns (rest: seq<T>)
    requires x in samples
    ensures multiset(samples) == multiset(rest) + multiset{x}
  {
    var i :| 0 <= i < |samples| && samples[i] == x;
    rest := samples[..i] + samples[i + 1..];
    RemoveAt(samples, i);
  }

  /** Two members at different places can be moved to the end, in either order. */
  lemma {:induction false} TakeTwo<T>(samples: seq<T>, x: T, y: T) returns (rest: seq<T>)
    requires x in samples && y in samples && x != y
    ensures multiset(rest + [x, y]) == multiset(samples) && multiset(rest + [y, x]) == multiset(samples)
  {
    var less := TakeOne(samples, x);
    assert y in multiset(samples) && y in multiset(less);
    rest := TakeOne(less, y);
    assert multiset([x, y]) == multiset{x, y} == multiset([y, x]);
  }

  /** The first sample later than a tie that matters is at the time the tie matters for. */
  lemma {:induction false} FirstAfter<T>(rest: seq<Stamped<T>>, x: Stamped<T>, z: Stamped<T>)
    requires z in rest && x.at < z.at && forall o :: o in rest ==> !(x.at < o.at < z.at)
    ensures var v := Filter(SortByTime(rest), After(x.at)); v != [] && v[0].at == z.at
  {
    var s := SortByTime(rest);
    var v := Filter(s, After(x.at));
    SortMember(rest, z);
    FilterMember(s, After(x.at), z);
    var i :| 0 <= i < |v| && v[i] == z;
    FilterMember(s, After(x.at), v[0]);
    SortMember(rest, v[0]);
    SortSorted(rest);
    SortFilter(rest, After(x.at));
    SortSorted(Filter(rest, After(x.at)));
  }

  /** Whatever the rest of the stream, swapping a tie that matters changes the total. */
  lemma {:induction false} SwapDiffers<T(!new)>(rest: seq<Stamped<T>>, worth: (T, int) -> int,
                                                x: Stamped<T>, y: Stamped<T>, z: Stamped<T>)
    requires IgnoresTies(worth) && z in rest && x.at == y.at < z.at
    requires forall o :: o in rest ==> !(x.at < o.at < z.at)
    requires worth(x.tag, z.at - x.at) != worth(y.tag, z.at - x.at)
    ensures Opened(SortByTime(rest + [x, y]), worth) != Opened(SortByTime(rest + [y, x]), worth)
  {
    hide SortByTime;
    hide Filter;
    hide Opened;
    FirstAfter(rest, x, z);
    TiedLast(rest, x, y);
    TiedLast(rest, y, x);
    var u, v := Filter(SortByTime(rest), NotAfter(x.at)), Filter(SortByTime(rest), After(x.at));
    TiedTotal(u, x, y, v, worth);
    TiedTotal(u, y, x, v, worth);
  }

  lemma {:induction false} StillThere<T>(samples: seq<T>, rest: seq<T>, x: T, y: T, z: T)
    requires multiset(rest + [x, y]) == multiset(samples)
    requires z in samples && z != x && z != y
    ensures z in rest
  {
    assert z in multiset(rest + [x, y]);
    assert z in rest + [x, y];
  }

  lemma {:induction false} WasThere<T>(samples: seq<T>, rest: seq<T>, x: T, y: T, o: T)
    requires multiset(rest + [x, y]) == multiset(samples) && o in rest
    ensures o in samples
  {
    assert o in rest + [x, y];
    assert o in multiset(rest + [x, y]);
  }

  lemma {:induction false} TwoOrdersDiffer<T(!new)>(samples: seq<Stamped<T>>, worth: (T, int) -> int,
                                                    x: Stamped<T>, y: Stamped<T>, z: Stamped<T>)
    requires x in samples && y in samples && z in samples && Matters(samples, worth, x, y, z) && IgnoresTies(worth)
    ensures !OrderFree(samples, worth)
  {
    hide SortByTime;
    hide Opened;
    var rest := TakeTwo(samples, x, y);
    forall o | o in rest ensures o in samples { WasThere(samples, rest, x, y, o); }
    StillThere(samples, rest, x, y, z);
    SwapDiffers(rest, worth, x, y, z);
  }

  /** Every arrival order gives the same total if and only if no tie matters. */
  lemma {:induction false} OrderFreeIff<T(!new)>(samples: seq<Stamped<T>>, worth: (T, int) -> int)
    requires IgnoresTies(worth)
    ensures OrderFree(samples, worth) <==> !TieMatters(samples, worth)
  {
    if !TieMatters(samples, worth) {
      NoTieNoOrder(samples, worth);
    } else {
      var x, y, z :| x in samples && y in samples && z in samples && Matters(samples, worth, x, y, z);
      TwoOrdersDiffer(samples, worth, x, y, z);
    }
  }
}
