/** A table read as a change feed: every write takes the next sequence number, readers page past a cursor. */
module Feed {
  import opened Prelude

  /** A record is found by its repository and its id or slug. */
  datatype Ref = Ref(repo: string, key: string)

  /** Where a record was first seen. */
  datatype Provenance = Provenance(commit: Option<string>, createdAt: Option<string>, session: Option<string>)

  /** `touched` numbers the version; the other fields are what the last capture said. */
  datatype Row = Row(touched: nat, first: Provenance, lastCommit: Option<string>, updatedAt: Option<string>,
                     text: string, globs: set<string>, links: set<string>,
                     state: Option<string>, stateChangedAt: Option<string>)

  type Table = map<Ref, Row>

  /** `COALESCE(MAX(touched_seq), 0)`. */
  ghost function MaxTouched(t: Table): nat {
    if t == map[] then 0
    else
      var k :| k in t;
      var rest := MaxTouched(t - {k});
      if t[k].touched > rest then t[k].touched else rest
  }

  ghost predicate IsMax(t: Table, m: nat) {
    (forall k :: k in t ==> t[k].touched <= m) && (m == 0 || exists k :: k in t && t[k].touched == m)
  }

  lemma {:induction false} MaxIsMax(t: Table)
    ensures IsMax(t, MaxTouched(t))
    decreases |t|
  {
    if t != map[] {
      var k :| k in t && MaxTouched(t) == var rest := MaxTouched(t - {k}); if t[k].touched > rest then t[k].touched else rest;
      MaxIsMax(t - {k});
      assert forall j :: j in t && j != k ==> j in t - {k};
    }
  }

  method FindMax(t: Table) returns (m: nat)
    ensures m == MaxTouched(t)
  {
    m := 0;
    var todo := t.Keys;
    while todo != {}
      invariant todo <= t.Keys
      invariant forall k :: k in t && k !in todo ==> t[k].touched <= m
      invariant m == 0 || exists k :: k in t && t[k].touched == m
      decreases todo
    {
      var k :| k in todo;
      todo := todo - {k};
      if t[k].touched > m { m := t[k].touched; }
    }
    MaxIsMax(t);
  }

  // ---- what is past a cursor ---------------------------------------------------------------

  ghost predicate DistinctVersions(t: Table) {
    forall j, k :: j in t && k in t && t[j].touched == t[k].touched ==> j == k
  }

  function Past(t: Table, cursor: int): set<Ref> {
    set k | k in t && t[k].touched > cursor
  }

  ghost predicate IsNext(t: Table, cursor: int, k: Ref) {
    k in Past(t, cursor) && forall j :: j in Past(t, cursor) ==> t[k].touched <= t[j].touched
  }

  method FindNext(t: Table, cursor: int) returns (next: Option<Ref>)
    ensures next.None? ==> Past(t, cursor) == {}
    ensures next.Some? ==> IsNext(t, cursor, next.value)
  {
    next := None;
    var todo := Past(t, cursor);
    while todo != {}
      invariant todo <= Past(t, cursor)
      invariant next.None? ==> todo == Past(t, cursor)
      invariant next.Some? ==> next.value in Past(t, cursor) - todo
      invariant next.Some? ==> forall j :: j in Past(t, cursor) - todo ==> t[next.value].touched <= t[j].touched
      decreases todo
    {
      var k :| k in todo;
      todo := todo - {k};
      if next.None? || t[k].touched < t[next.value].touched { next := Some(k); }
    }
  }

  lemma {:induction false} NextExists(t: Table, keys: set<Ref>) returns (k: Ref)
    requires keys != {} && keys <= t.Keys
    ensures k in keys && forall j :: j in keys ==> t[k].touched <= t[j].touched
    decreases keys
  {
    k :| k in keys;
    if keys != {k} {
      var r := NextExists(t, keys - {k});
      if t[r].touched < t[k].touched { k := r; }
    }
  }

  lemma {:induction false} SomeNext(t: Table, cursor: int)
    requires Past(t, cursor) != {}
    ensures exists k :: IsNext(t, cursor, k)
  {
    var k := NextExists(t, Past(t, cursor));
    assert IsNext(t, cursor, k);
  }

  lemma {:induction false} FewerPast(t: Table, cursor: int, k: Ref)
    requires k in Past(t, cursor)
    ensures Past(t, t[k].touched) < Past(t, cursor)
  {
    assert k !in Past(t, t[k].touched);
  }

  /** The records past the cursor, oldest touch first. */
  ghost function Pending(t: Table, cursor: int): seq<Ref>
    decreases Past(t, cursor)
  {
    if Past(t, cursor) == {} then []
    else
      SomeNext(t, cursor);
      var k :| IsNext(t, cursor, k);
      FewerPast(t, cursor, k);
      [k] + Pending(t, t[k].touched)
  }

  lemma {:induction false} PendingStep(t: Table, cursor: int, k: Ref)
    requires DistinctVersions(t) && IsNext(t, cursor, k)
    ensures Pending(t, cursor) == [k] + Pending(t, t[k].touched)
  {
    assert k in Past(t, cursor);
    SomeNext(t, cursor);
    var j :| IsNext(t, cursor, j) && Pending(t, cursor) == [j] + Pending(t, t[j].touched);
    assert j in Past(t, cursor);
    assert t[j].touched == t[k].touched;
  }

  /** In order, and exactly the records past the cursor. */
  ghost predicate IsPending(t: Table, cursor: int, p: seq<Ref>) {
    && (forall k :: k in p <==> k in Past(t, cursor))
    && (forall i, j :: 0 <= i < j < |p| ==> p[i] in t && p[j] in t && t[p[i]].touched < t[p[j]].touched)
  }

  lemma {:induction false} PendingHead(t: Table, cursor: int, k: Ref, rest: seq<Ref>)
    requires DistinctVersions(t) && IsNext(t, cursor, k) && IsPending(t, t[k].touched, rest)
    ensures IsPending(t, cursor, [k] + rest)
  {
    forall j ensures j in [k] + rest <==> j in Past(t, cursor) {
      if j in Past(t, cursor) && j != k { assert t[k].touched <= t[j].touched; }
    }
    assert forall i :: 0 <= i < |rest| ==> rest[i] in rest;
  }

  lemma {:induction false} PendingIsOrdered(t: Table, cursor: int)
    requires DistinctVersions(t)
    ensures IsPending(t, cursor, Pending(t, cursor))
    decreases Past(t, cursor)
  {
    if Past(t, cursor) != {} {
      SomeNext(t, cursor);
      var k :| IsNext(t, cursor, k);
      FewerPast(t, cursor, k);
      PendingStep(t, cursor, k);
      var rest := Pending(t, t[k].touched);
      PendingIsOrdered(t, t[k].touched);
      PendingHead(t, cursor, k, rest);
    }
  }

  /** `LIMIT`: a negative limit is none. */
  function Take<T>(s: seq<T>, limit: int): seq<T> {
    if limit < 0 || limit >= |s| then s else s[..limit]
  }

  /** One read of the window past the cursor. */
  method ReadSince(t: Table, cursor: int, limit: int) returns (window: seq<Ref>)
    requires DistinctVersions(t)
    ensures window == Take(Pending(t, cursor), limit)
    ensures window <= Pending(t, cursor)
    ensures |window| == if 0 <= limit < |Pending(t, cursor)| then limit else |Pending(t, cursor)|
  {
    window := [];
    var at := cursor;
    while limit < 0 || |window| < limit
      invariant Pending(t, cursor) == window + Pending(t, at)
      invariant limit >= 0 ==> |window| <= limit
      decreases Past(t, at)
    {
      var next := FindNext(t, at);
      if next.None? {
        assert Pending(t, at) == [];
        return;
      }
      PendingStep(t, at, next.value);
      FewerPast(t, at, next.value);
      assert window + ([next.value] + Pending(t, t[next.value].touched)) == window + [next.value] + Pending(t, t[next.value].touched);
      window := window + [next.value];
      at := t[next.value].touched;
    }
  }

  // ---- a reader ----------------------------------------------------------------------------

  /** One version of a record, as a reader got it. */
  datatype Version = Version(ref: Ref, touched: nat)

  function VersionsOf(t: Table, window: seq<Ref>): (r: seq<Version>)
    requires forall k :: k in window ==> k in t
    ensures |r| == |window|
  {
    seq(|window|, i requires 0 <= i < |window| => assert window[i] in window; Version(window[i], t[window[i]].touched))
  }

  /** The cursor after a window has been accepted: the last sequence number in it. */
  function Advanced(t: Table, cursor: int, window: seq<Ref>): int
    requires forall k :: k in window ==> k in t
  {
    if window == [] then cursor else assert window[|window| - 1] in window; t[window[|window| - 1]].touched
  }

  ghost predicate InOrder(versions: seq<Version>) {
    forall i, j :: 0 <= i < j < |versions| ==> versions[i].touched < versions[j].touched
  }

  /** A table, the reader's cursor, and every version it has been given since the cursor was last reset. */
  ghost predicate FeedOk(t: Table, cursor: int, delivered: seq<Version>) {
    && DistinctVersions(t)
    && 0 <= cursor <= MaxTouched(t)
    && (forall i :: 0 <= i < |delivered| ==> delivered[i].touched <= cursor)
    && InOrder(delivered)
    && (forall k :: k in t && Version(k, t[k].touched) !in delivered ==> t[k].touched > cursor)
  }

  /** A write takes the next number, so it is past every cursor and pending again. */
  lemma {:induction false} WriteKeepsFeed(t: Table, cursor: int, delivered: seq<Version>, k: Ref, row: Row)
    requires FeedOk(t, cursor, delivered) && row.touched == MaxTouched(t) + 1
    ensures FeedOk(t[k := row], cursor, delivered)
    ensures k in Past(t[k := row], cursor)
  {
    MaxIsMax(t);
    MaxIsMax(t[k := row]);
    var u := t[k := row];
    assert u[k].touched == MaxTouched(t) + 1;
    forall j | j in u && Version(j, u[j].touched) !in delivered ensures u[j].touched > cursor {}
  }

  lemma {:induction false} WindowIsOrdered(t: Table, cursor: int, limit: int)
    requires DistinctVersions(t)
    ensures var w := Take(Pending(t, cursor), limit);
            && (forall k :: k in w ==> k in t && t[k].touched > cursor)
            && (forall i, j :: 0 <= i < j < |w| ==> t[w[i]].touched < t[w[j]].touched)
            && (forall k :: k in t && t[k].touched > cursor && k !in w ==> w == [] || t[w[|w| - 1]].touched < t[k].touched)
  {
    hide Pending;
    hide DistinctVersions;
    PendingIsOrdered(t, cursor);
    var p, w := Pending(t, cursor), Take(Pending(t, cursor), limit);
    forall i | 0 <= i < |w| ensures w[i] == p[i] && w[i] in p && w[i] in w {}
    forall k | k in t && t[k].touched > cursor && k !in w ensures w == [] || t[w[|w| - 1]].touched < t[k].touched {
      assert k in p;
      var i :| 0 <= i < |p| && p[i] == k;
    }
  }

  lemma {:induction false} WindowVersions(t: Table, cursor: int, w: seq<Ref>)
    requires w != []
    requires forall k :: k in w ==> k in t && cursor < t[k].touched
    requires forall i, j :: 0 <= i < j < |w| ==> t[w[i]].touched < t[w[j]].touched
    ensures var v := VersionsOf(t, w);
            && InOrder(v)
            && (forall i :: 0 <= i < |v| ==> cursor < v[i].touched <= Advanced(t, cursor, w))
            && (forall k :: k in w ==> Version(k, t[k].touched) in v)
  {
    var v := VersionsOf(t, w);
    forall i | 0 <= i < |w| ensures w[i] in w && v[i] == Version(w[i], t[w[i]].touched) {}
    forall k | k in w ensures Version(k, t[k].touched) in v {
      var i :| 0 <= i < |w| && w[i] == k;
      assert v[i] == Version(k, t[k].touched);
    }
  }

  // ---- a window in flight ------------------------------------------------------------------

  /** A window handed to the reader and not accepted yet; `stale` once the cursor was reset under it. */
  datatype Reading = Reading(from: int, versions: seq<Version>, stale: bool) {
    /** The last sequence number in it, where accepting it puts the cursor. */
    function High(): int {
      if versions == [] then from else versions[|versions| - 1].touched
    }
  }

  /** The versions come after where they were read from, and none up to the last of them is left out. */
  ghost predicate InFlightOk(t: Table, cursor: int, delivered: seq<Version>, r: Reading) {
    && 0 <= r.from && InOrder(r.versions)
    && (forall i :: 0 <= i < |r.versions| ==> r.from < r.versions[i].touched <= MaxTouched(t))
    && (forall k :: k in t && r.from < t[k].touched <= r.High() ==> Version(k, t[k].touched) in r.versions)
    && (if r.stale then delivered == [] else cursor == r.from)
  }

  lemma {:induction false} WindowInFlight(t: Table, cursor: int, delivered: seq<Version>, w: seq<Ref>)
    requires w != [] && 0 <= cursor
    requires forall k :: k in w ==> k in t && cursor < t[k].touched <= MaxTouched(t)
    requires forall i, j :: 0 <= i < j < |w| ==> t[w[i]].touched < t[w[j]].touched
    requires forall k :: k in t && t[k].touched > cursor && k !in w ==> t[w[|w| - 1]].touched < t[k].touched
    ensures InFlightOk(t, cursor, delivered, Reading(cursor, VersionsOf(t, w), false))
    ensures Reading(cursor, VersionsOf(t, w), false).High() == Advanced(t, cursor, w)
  {
    hide MaxTouched;
    hide VersionsOf;
    hide InOrder;
    WindowVersions(t, cursor, w);
    var v := VersionsOf(t, w);
    LastVersion(t, w);
    forall k | k in t && cursor < t[k].touched <= v[|v| - 1].touched ensures Version(k, t[k].touched) in v {
      assert k in w;
    }
  }

  lemma {:induction false} LastVersion(t: Table, w: seq<Ref>)
    requires w != [] && forall k :: k in w ==> k in t
    ensures var v := VersionsOf(t, w);
            (forall i :: 0 <= i < |v| ==> w[i] in w && v[i] == Version(w[i], t[w[i]].touched))
  {
    forall i | 0 <= i < |w| ensures w[i] in w {}
  }

  /** A read puts its window in flight. */
  lemma {:induction false} ReadStarts(t: Table, cursor: int, delivered: seq<Version>, limit: int)
    requires DistinctVersions(t) && 0 <= cursor
    ensures var w := Take(Pending(t, cursor), limit);
            && (forall k :: k in w ==> k in t)
            && InFlightOk(t, cursor, delivered, Reading(cursor, VersionsOf(t, w), false))
            && Reading(cursor, VersionsOf(t, w), false).High() == Advanced(t, cursor, w)
  {
    hide Pending;
    hide DistinctVersions;
    hide Take;
    WindowIsOrdered(t, cursor, limit);
    MaxIsMax(t);
    var w := Take(Pending(t, cursor), limit);
    hide MaxTouched;
    if w != [] { WindowInFlight(t, cursor, delivered, w); }
  }

  /** A write lands behind whatever is in flight. */
  lemma {:induction false} WriteKeepsInFlight(t: Table, cursor: int, delivered: seq<Version>, r: Reading, k: Ref,
                                              row: Row)
    requires InFlightOk(t, cursor, delivered, r) && row.touched == MaxTouched(t) + 1 && r.from <= MaxTouched(t)
    ensures InFlightOk(t[k := row], cursor, delivered, r)
  {
    MaxIsMax(t[k := row]);
    assert t[k := row][k].touched == MaxTouched(t) + 1;
  }

  /** Some record's latest version lies at or before the place the window was read from. */
  ghost predicate LeavesBehind(t: Table, r: Reading) {
    r.stale && exists k :: k in t && t[k].touched <= r.from
  }

  /**
   Accepting a window, however many writes came since it was read, never passes a latest version that was
   not handed over, unless the cursor was reset in between and something lies before the window.
   */
  lemma {:induction false} AcceptKeepsFeedIff(t: Table, cursor: int, delivered: seq<Version>, r: Reading)
    requires FeedOk(t, cursor, delivered) && InFlightOk(t, cursor, delivered, r) && r.versions != []
    ensures FeedOk(t, r.High(), delivered + r.versions) <==> !LeavesBehind(t, r)
  {
    hide DistinctVersions;
    var v := r.versions;
    if LeavesBehind(t, r) {
      AcceptLeaves(t, cursor, delivered, r);
    } else {
      AcceptInOrder(delivered, r, cursor);
      assert 0 <= r.High() <= MaxTouched(t);
      forall k | k in t && Version(k, t[k].touched) !in delivered + v ensures t[k].touched > r.High() {
        assert t[k].touched > r.from;
      }
    }
  }

  lemma {:induction false} AcceptInOrder(delivered: seq<Version>, r: Reading, cursor: int)
    requires InOrder(delivered) && InOrder(r.versions) && r.versions != []
    requires forall i :: 0 <= i < |delivered| ==> delivered[i].touched <= cursor
    requires forall i :: 0 <= i < |r.versions| ==> r.from < r.versions[i].touched
    requires if r.stale then delivered == [] else cursor == r.from
    ensures InOrder(delivered + r.versions)
    ensures var all := delivered + r.versions; forall i :: 0 <= i < |all| ==> all[i].touched <= r.High()
  {
  }

  /** What lies before a stale window is then behind the cursor and not handed over. */
  lemma {:induction false} AcceptLeaves(t: Table, cursor: int, delivered: seq<Version>, r: Reading)
    requires InFlightOk(t, cursor, delivered, r) && r.versions != [] && LeavesBehind(t, r)
    ensures !FeedOk(t, r.High(), delivered + r.versions)
  {
    var k :| k in t && t[k].touched <= r.from;
    assert delivered + r.versions == r.versions;
    assert Version(k, t[k].touched) !in r.versions;
  }

  /** A window accepted at once is new, in order, and leaves nothing behind the new cursor. */
  lemma {:induction false} ReadKeepsFeed(t: Table, cursor: int, delivered: seq<Version>, limit: int)
    requires FeedOk(t, cursor, delivered)
    ensures var w := Take(Pending(t, cursor), limit);
            && (forall k :: k in w ==> k in t)
            && FeedOk(t, Advanced(t, cursor, w), delivered + VersionsOf(t, w))
  {
    hide Pending;
    ReadStarts(t, cursor, delivered, limit);
    var w := Take(Pending(t, cursor), limit);
    if w == [] {
      assert delivered + VersionsOf(t, w) == delivered;
    } else {
      AcceptKeepsFeedIff(t, cursor, delivered, Reading(cursor, VersionsOf(t, w), false));
    }
  }

  // ---- draining ----------------------------------------------------------------------------

  /** Where `n` reads in a row, with no writer, leave the cursor. */
  ghost function AfterReads(t: Table, cursor: int, limit: int, n: nat): int
    requires DistinctVersions(t)
  {
    if n == 0 then cursor
    else
      var c := AfterReads(t, cursor, limit, n - 1);
      WindowIsOrdered(t, c, limit);
      Advanced(t, c, Take(Pending(t, c), limit))
  }

  /** What `n` reads in a row hand over. */
  ghost function HandedOver(t: Table, cursor: int, limit: int, n: nat): seq<Ref>
    requires DistinctVersions(t)
  {
    if n == 0 then []
    else HandedOver(t, cursor, limit, n - 1) + Take(Pending(t, AfterReads(t, cursor, limit, n - 1)), limit)
  }

  lemma {:induction false} PendingTail(t: Table, cursor: int)
    requires DistinctVersions(t) && Pending(t, cursor) != []
    ensures var p := Pending(t, cursor); p[0] in t && Pending(t, t[p[0]].touched) == p[1..]
  {
    PendingIsOrdered(t, cursor);
  }

  lemma {:induction false} PendingAfterWindow(t: Table, cursor: int, m: nat)
    requires DistinctVersions(t) && m <= |Pending(t, cursor)|
    ensures forall k :: k in Pending(t, cursor)[..m] ==> k in t
    ensures Pending(t, Advanced(t, cursor, Pending(t, cursor)[..m])) == Pending(t, cursor)[m..]
    decreases m
  {
    hide DistinctVersions;
    PendingIsOrdered(t, cursor);
    var p := Pending(t, cursor);
    if m == 0 {
      assert p[..0] == [] && p[0..] == p;
    } else {
      PendingAfterWindow(t, cursor, m - 1);
      var k, c := p[m - 1], Advanced(t, cursor, p[..m - 1]);
      assert Pending(t, c) == p[m - 1..];
      PendingTail(t, c);
      assert p[m - 1..][1..] == p[m..];
      assert p[..m][m - 1] == k;
      hide Pending;
    }
  }

  /** One more read hands over the next window, and the rest stays pending. */
  lemma {:induction false} OneMoreRead(t: Table, cursor: int, limit: int, n: nat)
    requires DistinctVersions(t) && n > 0
    ensures var p := Pending(t, AfterReads(t, cursor, limit, n - 1));
            var w := Take(p, limit);
            && HandedOver(t, cursor, limit, n) == HandedOver(t, cursor, limit, n - 1) + w
            && Pending(t, AfterReads(t, cursor, limit, n)) == p[|w|..]
            && w + p[|w|..] == p
  {
    hide Pending;
    var c := AfterReads(t, cursor, limit, n - 1);
    var p := Pending(t, c);
    var m := |Take(p, limit)|;
    assert Take(p, limit) == p[..m];
    PendingAfterWindow(t, c, m);
  }

  lemma {:induction false} HandsOverInOrder(t: Table, cursor: int, limit: int, n: nat)
    requires DistinctVersions(t)
    ensures HandedOver(t, cursor, limit, n) + Pending(t, AfterReads(t, cursor, limit, n)) == Pending(t, cursor)
  {
    if n > 0 {
      HandsOverInOrder(t, cursor, limit, n - 1);
      OneMoreRead(t, cursor, limit, n);
      var p := Pending(t, AfterReads(t, cursor, limit, n - 1));
      Regroup(HandedOver(t, cursor, limit, n - 1), Take(p, limit), p[|Take(p, limit)|..]);
    }
  }

  lemma {:induction false} TakesSome(p: seq<Ref>, limit: int)
    requires limit != 0
    ensures p == [] || 0 < |Take(p, limit)| <= |p|
  {
  }

  lemma {:induction false} OneMoreReadShrinks(t: Table, cursor: int, limit: int, n: nat)
    requires DistinctVersions(t) && limit != 0 && n > 0
    ensures var before, left := |Pending(t, AfterReads(t, cursor, limit, n - 1))|, |Pending(t, AfterReads(t, cursor, limit, n))|;
            left == 0 || left < before
  {
    hide *;
    OneMoreRead(t, cursor, limit, n);
    TakesSome(Pending(t, AfterReads(t, cursor, limit, n - 1)), limit);
  }

  lemma {:induction false} Shrinks(t: Table, cursor: int, limit: int, n: nat)
    requires DistinctVersions(t) && limit != 0
    ensures |Pending(t, AfterReads(t, cursor, limit, n))| <= if n < |Pending(t, cursor)| then |Pending(t, cursor)| - n else 0
  {
    hide Pending;
    hide DistinctVersions;
    if n > 0 {
      hide AfterReads;
      Shrinks(t, cursor, limit, n - 1);
      OneMoreReadShrinks(t, cursor, limit, n);
    }
  }

  /** With writers stopped, reads hand over the backlog in order, and enough of them drain it. */
  lemma {:induction false} ReadsDrain(t: Table, cursor: int, limit: int, n: nat)
    requires DistinctVersions(t) && limit != 0
    ensures HandedOver(t, cursor, limit, n) + Pending(t, AfterReads(t, cursor, limit, n)) == Pending(t, cursor)
    ensures |Pending(t, cursor)| <= n ==> HandedOver(t, cursor, limit, n) == Pending(t, cursor)
  {
    HandsOverInOrder(t, cursor, limit, n);
    Shrinks(t, cursor, limit, n);
  }

  /** A reader that asks for nothing gets nothing: the limit must not be zero. */
  lemma {:induction false} ZeroLimitStalls(t: Table, cursor: int, n: nat)
    requires DistinctVersions(t)
    ensures HandedOver(t, cursor, 0, n) == [] && AfterReads(t, cursor, 0, n) == cursor
  {
    if n > 0 { ZeroLimitStalls(t, cursor, n - 1); }
  }
}
