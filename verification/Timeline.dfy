/** Time-stamped values and the stable sort by time that every accounting rule starts from. */
module Timeline {
  import opened Prelude

  datatype Stamped<+T> = Stamped(at: int, tag: T)

  /** `Duration::whole_seconds`: truncation toward zero. */
  function WholeSeconds(d: int): int {
    if d >= 0 then d / NANOS else -((-d) / NANOS)
  }

  lemma {:induction false} WholeSecondsAdd(a: int, b: int)
    requires 0 <= a && 0 <= b
    ensures WholeSeconds(a) + WholeSeconds(b) <= WholeSeconds(a + b) <= WholeSeconds(a) + WholeSeconds(b) + 1
    ensures WholeSeconds(a + b) == WholeSeconds(a) + WholeSeconds(b) <==> a % NANOS + b % NANOS < NANOS
  {
  }

  ghost predicate Sorted<T>(s: seq<Stamped<T>>) {
    forall i, j :: 0 <= i < j < |s| ==> s[i].at <= s[j].at
  }

  /** Places `x` after every element that is not later than it. */
  function Insert<T>(s: seq<Stamped<T>>, x: Stamped<T>): (r: seq<Stamped<T>>)
    ensures |r| == |s| + 1
  {
    if s == [] || s[|s| - 1].at <= x.at then s + [x]
    else Insert(s[..|s| - 1], x) + [s[|s| - 1]]
  }

  /** The stable `sort_by_key(|s| s.at)`: equal times keep their input order. */
  function SortByTime<T>(s: seq<Stamped<T>>): (r: seq<Stamped<T>>)
    ensures |r| == |s|
  {
    if s == [] then [] else Insert(SortByTime(s[..|s| - 1]), s[|s| - 1])
  }

  lemma {:induction false} SortSnoc<T>(s: seq<Stamped<T>>, x: Stamped<T>)
    ensures SortByTime(s + [x]) == Insert(SortByTime(s), x)
  {
    assert (s + [x])[..|s|] == s;
  }

  lemma {:induction false} InsertMultiset<T>(s: seq<Stamped<T>>, x: Stamped<T>)
    ensures multiset(Insert(s, x)) == multiset(s) + multiset{x}
  {
    if !(s == [] || s[|s| - 1].at <= x.at) {
      InsertMultiset(s[..|s| - 1], x);
      assert s == s[..|s| - 1] + [s[|s| - 1]];
    }
  }

  lemma {:induction false} InsertMember<T>(s: seq<Stamped<T>>, x: Stamped<T>, y: Stamped<T>)
    ensures y in Insert(s, x) <==> y in s || y == x
  {
    InsertMultiset(s, x);
    assert y in Insert(s, x) <==> y in multiset(Insert(s, x));
    assert y in s <==> y in multiset(s);
  }

  lemma {:induction false} InsertSorted<T>(s: seq<Stamped<T>>, x: Stamped<T>)
    requires Sorted(s)
    ensures Sorted(Insert(s, x))
  {
    if !(s == [] || s[|s| - 1].at <= x.at) {
      var t := s[..|s| - 1];
      InsertSorted(t, x);
      forall y | y in Insert(t, x) ensures y.at <= s[|s| - 1].at {
        InsertMember(t, x, y);
      }
      var r := Insert(t, x);
      forall i | 0 <= i < |r| ensures r[i].at <= s[|s| - 1].at { assert r[i] in r; }
    }
  }

  lemma {:induction false} SortMultiset<T>(s: seq<Stamped<T>>)
    ensures multiset(SortByTime(s)) == multiset(s)
  {
    if s != [] {
      SortMultiset(s[..|s| - 1]);
      InsertMultiset(SortByTime(s[..|s| - 1]), s[|s| - 1]);
      assert s == s[..|s| - 1] + [s[|s| - 1]];
    }
  }

  lemma {:induction false} SortSorted<T>(s: seq<Stamped<T>>)
    ensures Sorted(SortByTime(s))
  {
    if s != [] {
      SortSorted(s[..|s| - 1]);
      InsertSorted(SortByTime(s[..|s| - 1]), s[|s| - 1]);
    }
  }

  lemma {:induction false} SortMember<T>(s: seq<Stamped<T>>, y: Stamped<T>)
    ensures y in SortByTime(s) <==> y in s
  {
    SortMultiset(s);
    assert y in SortByTime(s) <==> y in multiset(SortByTime(s));
    assert y in s <==> y in multiset(s);
  }

  lemma {:induction false} SortOfSorted<T>(s: seq<Stamped<T>>)
    requires Sorted(s)
    ensures SortByTime(s) == s
  {
    if s != [] {
      SortOfSorted(s[..|s| - 1]);
      assert s == s[..|s| - 1] + [s[|s| - 1]];
    }
  }

  lemma {:induction false} SortTwice<T>(s: seq<Stamped<T>>)
    ensures SortByTime(SortByTime(s)) == SortByTime(s)
  {
    SortSorted(s);
    SortOfSorted(SortByTime(s));
  }

  /** Sorting a prefix first changes nothing. */
  lemma {:induction false} SortPrefix<T>(a: seq<Stamped<T>>, b: seq<Stamped<T>>)
    ensures SortByTime(SortByTime(a) + b) == SortByTime(a + b)
  {
    if b == [] {
      SortTwice(a);
      assert SortByTime(a) + b == SortByTime(a) && a + b == a;
    } else {
      var t, x := b[..|b| - 1], b[|b| - 1];
      SortPrefix(a, t);
      SortOneMore(SortByTime(a), t, x);
      SortOneMore(a, t, x);
      assert b == t + [x];
    }
  }

  lemma {:induction false} SortOneMore<T>(a: seq<Stamped<T>>, t: seq<Stamped<T>>, x: Stamped<T>)
    ensures SortByTime(a + (t + [x])) == Insert(SortByTime(a + t), x)
  {
    Regroup(a, t, [x]);
  }

  /** The stable sort commutes with any filter. */
  lemma {:induction false} SortFilter<T>(s: seq<Stamped<T>>, p: Stamped<T> -> bool)
    ensures Filter(SortByTime(s), p) == SortByTime(Filter(s, p))
  {
    if s != [] {
      var t, x := s[..|s| - 1], s[|s| - 1];
      SortFilter(t, p);
      SortSorted(t);
      InsertFilter(SortByTime(t), x, p);
    }
  }

  lemma {:induction false} InsertFilter<T>(s: seq<Stamped<T>>, x: Stamped<T>, p: Stamped<T> -> bool)
    requires Sorted(s)
    ensures Filter(Insert(s, x), p) == if p(x) then Insert(Filter(s, p), x) else Filter(s, p)
  {
    if s == [] || s[|s| - 1].at <= x.at {
      FilterSnoc(s, x, p);
      var f := Filter(s, p);
      if f != [] {
        FilterMember(s, p, f[|f| - 1]);
        assert f[|f| - 1].at <= x.at;
      }
    } else {
      var t, l := s[..|s| - 1], s[|s| - 1];
      InsertFilter(t, x, p);
      FilterSnoc(Insert(t, x), l, p);
    }
  }

  /** Elements with the same time are equal. */
  ghost predicate TimeDetermines<T>(s: seq<Stamped<T>>) {
    forall i, j :: 0 <= i < |s| && 0 <= j < |s| && s[i].at == s[j].at ==> s[i] == s[j]
  }

  /** A sorted arrangement is unique when equal times mean equal elements. */
  lemma {:induction false} SortedUnique<T>(a: seq<Stamped<T>>, b: seq<Stamped<T>>)
    requires Sorted(a) && Sorted(b) && multiset(a) == multiset(b)
    requires TimeDetermines(a)
    ensures a == b
  {
    SameLength(a, b);
    if a != [] {
      var n := |a| - 1;
      SameLast(a, b);
      RemoveLast(a);
      RemoveLast(b);
      SortedUnique(a[..n], b[..n]);
    }
  }

  lemma {:induction false} SameLength<T>(a: seq<T>, b: seq<T>)
    requires multiset(a) == multiset(b)
    ensures |a| == |b|
  {
    assert |a| == |multiset(a)| == |multiset(b)| == |b|;
  }

  lemma {:induction false} SameLast<T>(a: seq<Stamped<T>>, b: seq<Stamped<T>>)
    requires a != [] && |a| == |b|
    requires Sorted(a) && Sorted(b) && multiset(a) == multiset(b)
    requires TimeDetermines(a)
    ensures a[|a| - 1] == b[|b| - 1]
  {
    var x, y := a[|a| - 1], b[|b| - 1];
    assert x in multiset(b) && y in multiset(a);
    assert x in b && y in a;
  }

  /** The same times with another thing attached to each. */
  function Retag<T, U>(s: seq<Stamped<T>>, f: T -> U): (r: seq<Stamped<U>>)
    ensures |r| == |s|
    ensures forall i :: 0 <= i < |s| ==> r[i] == Stamped(s[i].at, f(s[i].tag))
  {
    seq(|s|, i requires 0 <= i < |s| => Stamped(s[i].at, f(s[i].tag)))
  }

  lemma {:induction false} InsertRetag<T, U>(s: seq<Stamped<T>>, x: Stamped<T>, f: T -> U)
    ensures Retag(Insert(s, x), f) == Insert(Retag(s, f), Stamped(x.at, f(x.tag)))
  {
    if s == [] || s[|s| - 1].at <= x.at {
      assert Retag(s + [x], f) == Retag(s, f) + [Stamped(x.at, f(x.tag))];
    } else {
      InsertRetag(s[..|s| - 1], x, f);
      assert Retag(s, f)[..|s| - 1] == Retag(s[..|s| - 1], f);
    }
  }

  lemma {:induction false} SortRetag<T, U>(s: seq<Stamped<T>>, f: T -> U)
    ensures Retag(SortByTime(s), f) == SortByTime(Retag(s, f))
  {
    if s != [] {
      SortRetag(s[..|s| - 1], f);
      InsertRetag(SortByTime(s[..|s| - 1]), s[|s| - 1], f);
      assert Retag(s, f)[..|s| - 1] == Retag(s[..|s| - 1], f);
    }
  }

  /** Selects the times in `[lo, hi]`. */
  function Between<T>(lo: int, hi: int): Stamped<T> -> bool {
    (x: Stamped<T>) => lo <= x.at <= hi
  }

  lemma {:induction false} FilterRetag<T, U>(s: seq<Stamped<T>>, f: T -> U, lo: int, hi: int)
    ensures Filter(Retag(s, f), Between(lo, hi)) == Retag(Filter(s, Between(lo, hi)), f)
  {
    if s != [] {
      var n := |s| - 1;
      FilterRetag(s[..n], f, lo, hi);
      assert Retag(s, f)[..n] == Retag(s[..n], f);
      var r := Filter(s[..n], Between(lo, hi));
      assert Retag(r + [s[n]], f) == Retag(r, f) + [Retag(s, f)[n]];
    }
  }

  /** The times alone, with nothing attached. */
  function Untag<T>(s: seq<Stamped<T>>): (r: seq<Stamped<()>>)
    ensures |r| == |s|
    ensures forall i :: 0 <= i < |s| ==> r[i] == Stamped(s[i].at, ())
  {
    Retag(s, (t: T) => ())
  }

  lemma {:induction false} SortUntag<T>(s: seq<Stamped<T>>)
    ensures Untag(SortByTime(s)) == SortByTime(Untag(s))
  {
    SortRetag(s, (t: T) => ());
  }

  lemma {:induction false} InsertAfter<T>(u: seq<Stamped<T>>, v: seq<Stamped<T>>, x: Stamped<T>)
    requires forall y :: y in u ==> y.at <= x.at
    ensures Insert(u + v, x) == u + Insert(v, x)
  {
    if v == [] {
      assert u + v == u;
      assert u + Insert(v, x) == u + [x];
      if u != [] { assert u[|u| - 1] in u; }
    } else {
      var n := |v| - 1;
      assert u + v == (u + v[..n]) + [v[n]];
      if v[n].at > x.at {
        InsertAfter(u, v[..n], x);
      }
    }
  }

  /** A later batch is sorted on its own and appended. */
  lemma {:induction false} SortChronological<T>(a: seq<Stamped<T>>, b: seq<Stamped<T>>)
    requires forall x, y :: x in a && y in b ==> x.at <= y.at
    ensures SortByTime(a + b) == SortByTime(a) + SortByTime(b)
  {
    if b == [] {
      assert a + b == a;
    } else {
      var n := |b| - 1;
      SortChronological(a, b[..n]);
      assert a + b == (a + b[..n]) + [b[n]];
      forall y | y in SortByTime(a) ensures y.at <= b[n].at { SortMember(a, y); }
      InsertAfter(SortByTime(a), SortByTime(b[..n]), b[n]);
    }
  }

  lemma {:induction false} UntagMultiset<T>(a: seq<Stamped<T>>, b: seq<Stamped<T>>)
    requires multiset(a) == multiset(b)
    ensures multiset(Untag(a)) == multiset(Untag(b))
  {
    assert |a| == |multiset(a)| == |multiset(b)| == |b|;
    if a != [] {
      var n := |a| - 1;
      assert a[n] in multiset(b);
      var j :| 0 <= j < |b| && b[j] == a[n];
      RemoveLast(a);
      RemoveAt(b, j);
      UntagMultiset(a[..n], b[..j] + b[j + 1..]);
      UntagRemove(a, n);
      UntagRemove(b, j);
      assert a[..n] + a[n + 1..] == a[..n];
    }
  }

  lemma {:induction false} UntagRemove<T>(b: seq<Stamped<T>>, j: nat)
    requires j < |b|
    ensures multiset(Untag(b)) == multiset(Untag(b[..j] + b[j + 1..])) + multiset{Stamped(b[j].at, ())}
  {
    var u := Untag(b);
    assert Untag(b[..j] + b[j + 1..]) == u[..j] + u[j + 1..];
    assert u == u[..j] + [u[j]] + u[j + 1..];
  }

  /** Permuting the input never changes the sorted times. */
  lemma {:induction false} SortedTimesIgnoreOrder<T>(a: seq<Stamped<T>>, b: seq<Stamped<T>>)
    requires multiset(a) == multiset(b)
    ensures Untag(SortByTime(a)) == Untag(SortByTime(b))
  {
    SortUntag(a);
    SortUntag(b);
    UntagMultiset(a, b);
    SortSorted(Untag(a));
    SortSorted(Untag(b));
    SortMultiset(Untag(a));
    SortMultiset(Untag(b));
    SortedUnique(SortByTime(Untag(a)), SortByTime(Untag(b)));
  }

  /** With distinct times, permuting the input never changes the sorted sequence. */
  lemma {:induction false} SortIgnoresOrder<T>(a: seq<Stamped<T>>, b: seq<Stamped<T>>)
    requires multiset(a) == multiset(b)
    requires TimeDetermines(a)
    ensures SortByTime(a) == SortByTime(b)
  {
    SortSorted(a);
    SortSorted(b);
    SortMultiset(a);
    SortMultiset(b);
    var r := SortByTime(a);
    forall i, j | 0 <= i < |r| && 0 <= j < |r| && r[i].at == r[j].at ensures r[i] == r[j] {
      SortMember(a, r[i]);
      SortMember(a, r[j]);
    }
    SortedUnique(SortByTime(a), SortByTime(b));
  }
}
