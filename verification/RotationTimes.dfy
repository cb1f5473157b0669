/**
 The pending key and its time are two writes apart, so a crash can leave the one of a new rotation beside
 the other of an old one: exactly when a persist can tear the pair, for one device and over whole runs.
 */
module RotationTimes {
  import opened Prelude
  import opened Identity
  import opened Rotation

  // ---- one persist -------------------------------------------------------------------------

  /** Cut after `n` of its writes, a persist leaves nothing pending, or the key and time it was called with. */
  ghost predicate PairedAfter(d: Device, k: Key, at: string, n: nat)
    requires n <= |PersistWrites(d.keychain, k, at)|
  {
    var p := LoadPending(ApplyAll(d, PersistWrites(d.keychain, k, at)[..n]));
    p.None? || p == Some(PendingKey(k, at))
  }

  lemma {:induction false} PersistPrefix(d: Device, k: Key, at: string, n: nat)
    requires n <= |PersistWrites(d.keychain, k, at)|
    ensures var e := ApplyAll(d, PersistWrites(d.keychain, k, at)[..n]);
            && e.keychain == d.keychain
            && e.pendingAt == (if n == |PersistWrites(d.keychain, k, at)| then at else d.pendingAt)
            && (n > 0 ==> if d.keychain then e.kcPending == Some(k) else e.pendingSecret == Of(k))
            && (n == 0 ==> e == d)
  {
    var ws := PersistWrites(d.keychain, k, at);
    for i := 0 to n
      invariant var e := ApplyAll(d, ws[..i]);
                && e.keychain == d.keychain
                && e.pendingAt == (if i == |ws| then at else d.pendingAt)
                && (i > 0 ==> if d.keychain then e.kcPending == Some(k) else e.pendingSecret == Of(k))
                && (i == 0 ==> e == d)
    {
      assert ws[..i + 1] == ws[..i] + [ws[i]];
      WritesInTwo(d, ws[..i], [ws[i]]);
      OneWrite(ApplyAll(d, ws[..i]), ws[i]);
    }
  }

  /** Under a fresh time, no cut of a persist tears the pair if and only if no earlier time is left over. */
  lemma {:induction false} PersistIsWholeIff(d: Device, k: Key, at: string)
    requires at != "" && at != d.pendingAt
    ensures (forall n: nat :: n <= |PersistWrites(d.keychain, k, at)| ==> PairedAfter(d, k, at, n)) <==> d.pendingAt == ""
  {
    forall n: nat | n <= |PersistWrites(d.keychain, k, at)| && d.pendingAt == "" ensures PairedAfter(d, k, at, n) {
      PersistPrefix(d, k, at, n);
    }
    if d.pendingAt != "" {
      PersistPrefix(d, k, at, 1);
      assert !PairedAfter(d, k, at, 1);
    }
  }

  // ---- whole runs --------------------------------------------------------------------------

  /** What is pending was begun, key and time together. */
  ghost predicate PairBegun(d: Device, acts: seq<Act>) {
    var p := LoadPending(d);
    p.Some? ==> BeginPersist(p.value.key, p.value.rotatedAt) in acts
  }

  /** However much of its running operation gets written, what is then pending was begun as a pair. */
  ghost predicate WholeAtEveryCut(s: System, acts: seq<Act>) {
    forall n: nat :: n <= |s.rest| ==> PairBegun(ApplyAll(s.device, s.rest[..n]), acts)
  }

  ghost predicate NeverTorn(root: System, acts: seq<Act>)
    requires IsRun(root, acts)
  {
    forall i: nat :: i <= |acts| && IsRun(root, acts[..i]) ==> WholeAtEveryCut(After(root, acts[..i]), acts[..i])
  }

  /** Some rotation was begun while the time of an earlier one was still stored. */
  ghost predicate BegunOverATime(root: System, acts: seq<Act>) {
    exists i: nat :: i < |acts| && OverATime(root, acts, i)
  }

  ghost predicate OverATime(root: System, acts: seq<Act>, i: nat)
    requires i < |acts|
  {
    acts[i].BeginPersist? && IsRun(root, acts[..i]) && After(root, acts[..i]).device.pendingAt != ""
  }

  /** Every rotation begins with a new key and a new time. */
  ghost predicate Fresh(acts: seq<Act>) {
    forall i, j :: 0 <= i < j < |acts| && acts[i].BeginPersist? && acts[j].BeginPersist? ==>
      acts[i].key != acts[j].key && acts[i].rotatedAt != acts[j].rotatedAt
  }

  lemma {:induction false} RunPrefix(root: System, acts: seq<Act>, i: nat)
    requires IsRun(root, acts) && i <= |acts|
    ensures IsRun(root, acts[..i])
    decreases |acts|
  {
    if i == |acts| {
      assert acts[..i] == acts;
    } else {
      RunPrefix(root, acts[..|acts| - 1], i);
      assert acts[..|acts| - 1][..i] == acts[..i];
    }
  }

  // ---- every stored time was begun ---------------------------------------------------------

  ghost predicate TimeBegun(at: string, acts: seq<Act>) {
    at == "" || exists a :: a in acts && a.BeginPersist? && a.rotatedAt == at
  }

  ghost predicate TimesBegun(s: System, acts: seq<Act>) {
    && TimeBegun(s.device.pendingAt, acts)
    && forall w :: w in s.rest && w.SetPendingAt? ==> TimeBegun(w.at, acts)
  }

  lemma {:induction false} TimesStayBegun(s: System, act: Act, acts: seq<Act>)
    requires Enabled(s, act) && TimesBegun(s, acts)
    ensures TimesBegun(Next(s, act), acts + [act])
  {
    forall at | TimeBegun(at, acts) ensures TimeBegun(at, acts + [act]) {}
    if act.BeginPersist? {
      assert act in acts + [act];
    }
    if act.BeginPromote? || act.BeginDiscard? {
      ClearsTimesOnly(s.device.keychain, s.cloud);
    }
  }

  lemma {:induction false} ClearsTimesOnly(keychain: bool, k: Key)
    ensures forall w :: w in PromoteWrites(keychain, k) && w.SetPendingAt? ==> w.at == ""
    ensures forall w :: w in ClearWrites() && w.SetPendingAt? ==> w.at == ""
  {
  }

  lemma {:induction false} RunTimesBegun(keychain: bool, k: Key, acts: seq<Act>)
    requires IsRun(Linked(keychain, k), acts)
    ensures TimesBegun(After(Linked(keychain, k), acts), acts)
    decreases |acts|
  {
    if acts == [] {
      InstallWritten(Device(keychain, None, None, Absent, Absent, Absent, Absent, ""), k);
    } else {
      var n := |acts| - 1;
      RunTimesBegun(keychain, k, acts[..n]);
      TimesStayBegun(After(Linked(keychain, k), acts[..n]), acts[n], acts[..n]);
      assert acts == acts[..n] + [acts[n]];
    }
  }

  // ---- no rotation begun over a time: never torn -------------------------------------------

  lemma {:induction false} LaterStillBegun(d: Device, acts: seq<Act>, act: Act)
    requires PairBegun(d, acts)
    ensures PairBegun(d, acts + [act])
  {
  }

  lemma {:induction false} WriteKeepsWhole(s: System, acts: seq<Act>)
    requires s.rest != [] && WholeAtEveryCut(s, acts)
    ensures WholeAtEveryCut(Next(s, WriteOne), acts + [WriteOne])
  {
    var t := Next(s, WriteOne);
    forall n: nat | n <= |t.rest| ensures PairBegun(ApplyAll(t.device, t.rest[..n]), acts + [WriteOne]) {
      var cut := s.rest[..n + 1];
      assert cut[0] == s.rest[0] && cut[1..] == t.rest[..n];
      LaterStillBegun(ApplyAll(s.device, cut), acts, WriteOne);
    }
  }

  lemma {:induction false} PersistKeepsWhole(s: System, act: Act, acts: seq<Act>)
    requires Enabled(s, act) && act.BeginPersist? && s.device.pendingAt == ""
    ensures WholeAtEveryCut(Next(s, act), acts + [act])
  {
    var ws := PersistWrites(s.device.keychain, act.key, act.rotatedAt);
    PersistIsWholeIff(s.device, act.key, act.rotatedAt);
    forall n: nat | n <= |ws| ensures PairBegun(ApplyAll(s.device, ws[..n]), acts + [act]) {
      assert PairedAfter(s.device, act.key, act.rotatedAt, n);
    }
  }

  /** Writes that neither make another key pending nor store a time. */
  ghost predicate OnlyClears(ws: seq<Write>) {
    forall w :: w in ws ==>
      && !w.SetKcPending? && (w.SetPendingSecret? ==> !w.slot.Of?) && (w.SetPendingAt? ==> w.at == "")
  }

  lemma {:induction false} ClearingKeepsPair(d: Device, ws: seq<Write>, k: Key)
    requires PendingOnly(d, k) && OnlyClears(ws)
    ensures var e := ApplyAll(d, ws); PendingOnly(e, k) && e.keychain == d.keychain && e.pendingAt in {d.pendingAt, ""}
    decreases |ws|
  {
    if ws != [] {
      ClearingKeepsPair(Apply1(d, ws[0]), ws[1..], k);
    }
  }

  lemma {:induction false} ClearingKeepsWhole(d: Device, ws: seq<Write>, acts: seq<Act>)
    requires Sound(d) && LoadPending(d).Some? && PairBegun(d, acts)
    requires OnlyClears(ws)
    ensures PairBegun(ApplyAll(d, ws), acts)
  {
    ClearingKeepsPair(d, ws, LoadPending(d).value.key);
  }

  lemma {:induction false} ResolveKeepsWhole(s: System, act: Act, acts: seq<Act>)
    requires Enabled(s, act) && (act.BeginPromote? || act.BeginDiscard?) && Sound(s.device)
    requires PairBegun(s.device, acts)
    ensures WholeAtEveryCut(Next(s, act), acts + [act])
  {
    var ws := Next(s, act).rest;
    LaterStillBegun(s.device, acts, act);
    forall n: nat | n <= |ws| ensures PairBegun(ApplyAll(s.device, ws[..n]), acts + [act]) {
      assert OnlyClears(ws[..n]);
      ClearingKeepsWhole(s.device, ws[..n], acts + [act]);
    }
  }

  lemma {:induction false} StepKeepsWhole(s: System, act: Act, acts: seq<Act>)
    requires Inv(s) && Enabled(s, act) && WholeAtEveryCut(s, acts)
    requires act.BeginPersist? ==> s.device.pendingAt == ""
    ensures WholeAtEveryCut(Next(s, act), acts + [act])
  {
    assert s.rest[..0] == [] && ApplyAll(s.device, []) == s.device;
    assert PairBegun(s.device, acts);
    LaterStillBegun(s.device, acts, act);
    match act
    case BeginPersist(_, _) => PersistKeepsWhole(s, act, acts);
    case BeginPromote => ResolveKeepsWhole(s, act, acts);
    case BeginDiscard => ResolveKeepsWhole(s, act, acts);
    case WriteOne => WriteKeepsWhole(s, acts);
    case Post(_) =>
    case Crash =>
  }

  lemma {:induction false} WholeWithoutATime(keychain: bool, k: Key, acts: seq<Act>)
    requires IsRun(Linked(keychain, k), acts) && !BegunOverATime(Linked(keychain, k), acts)
    ensures WholeAtEveryCut(After(Linked(keychain, k), acts), acts)
    decreases |acts|
  {
    var root := Linked(keychain, k);
    if acts == [] {
      InstallWritten(Device(keychain, None, None, Absent, Absent, Absent, Absent, ""), k);
    } else {
      var n := |acts| - 1;
      NoneBefore(root, acts, n);
      WholeWithoutATime(keychain, k, acts[..n]);
      RunHolds(keychain, k, acts[..n]);
      assert !OverATime(root, acts, n);
      StepKeepsWhole(After(root, acts[..n]), acts[n], acts[..n]);
      assert acts == acts[..n] + [acts[n]];
    }
  }

  lemma {:induction false} NoneBefore(root: System, acts: seq<Act>, n: nat)
    requires n <= |acts| && !BegunOverATime(root, acts)
    ensures !BegunOverATime(root, acts[..n])
  {
    forall i: nat | i < n ensures !OverATime(root, acts[..n], i) {
      assert acts[..n][..i] == acts[..i];
      assert !OverATime(root, acts, i);
    }
  }

  // ---- a rotation begun over a time: torn after its first write ----------------------------

  lemma {:induction false} TornAfterOneWrite(keychain: bool, k: Key, acts: seq<Act>, i: nat)
    requires IsRun(Linked(keychain, k), acts) && Fresh(acts)
    requires i < |acts| && OverATime(Linked(keychain, k), acts, i)
    ensures IsRun(Linked(keychain, k), acts[..i + 1])
    ensures !WholeAtEveryCut(After(Linked(keychain, k), acts[..i + 1]), acts[..i + 1])
  {
    var root := Linked(keychain, k);
    RunPrefix(root, acts, i + 1);
    assert acts[..i + 1][..i] == acts[..i];
    RunTimesBegun(keychain, k, acts[..i]);
    var d := After(root, acts[..i]).device;
    var key, at := acts[i].key, acts[i].rotatedAt;
    var s := After(root, acts[..i + 1]);
    assert s.rest == PersistWrites(d.keychain, key, at) && s.device == d;
    PersistPrefix(d, key, at, 1);
    NotBegunAsAPair(acts, i, d.pendingAt);
    assert !PairBegun(ApplyAll(s.device, s.rest[..1]), acts[..i + 1]);
  }

  lemma {:induction false} NotBegunAsAPair(acts: seq<Act>, i: nat, was: string)
    requires Fresh(acts) && i < |acts| && acts[i].BeginPersist?
    requires was != "" && TimeBegun(was, acts[..i])
    ensures BeginPersist(acts[i].key, was) !in acts[..i + 1]
  {
    var a :| a in acts[..i] && a.BeginPersist? && a.rotatedAt == was;
    var j :| 0 <= j < i && acts[j] == a;
    assert acts[i].rotatedAt != was;
  }

  /**
   In a run whose rotations have new keys and times, what is pending at any cut was begun as that pair, if
   and only if no rotation was begun over the time of an earlier one.
   */
  lemma {:induction false} NeverTornIff(keychain: bool, k: Key, acts: seq<Act>)
    requires IsRun(Linked(keychain, k), acts) && Fresh(acts)
    ensures NeverTorn(Linked(keychain, k), acts) <==> !BegunOverATime(Linked(keychain, k), acts)
  {
    var root := Linked(keychain, k);
    if !BegunOverATime(root, acts) {
      forall i: nat | i <= |acts| && IsRun(root, acts[..i]) ensures WholeAtEveryCut(After(root, acts[..i]), acts[..i]) {
        NoneBefore(root, acts, i);
        WholeWithoutATime(keychain, k, acts[..i]);
      }
    } else {
      var i: nat :| i < |acts| && OverATime(root, acts, i);
      TornAfterOneWrite(keychain, k, acts, i);
    }
  }

  // ---- a run that gets there ---------------------------------------------------------------

  function Writes(n: nat): (r: seq<Act>)
    ensures |r| == n
  {
    if n == 0 then [] else Writes(n - 1) + [WriteOne]
  }

  lemma {:induction false} RunSnoc(root: System, acts: seq<Act>, act: Act)
    requires IsRun(root, acts) && Enabled(After(root, acts), act)
    ensures IsRun(root, acts + [act]) && After(root, acts + [act]) == Next(After(root, acts), act)
  {
    assert (acts + [act])[..|acts|] == acts;
  }

  /** The system after `n` more writes of its running operation. */
  function Written(s: System, n: nat): System
    requires n <= |s.rest|
  {
    s.(device := ApplyAll(s.device, s.rest[..n]), rest := s.rest[n..])
  }

  lemma {:induction false} OneMoreWritten(s: System, n: nat)
    requires n < |s.rest|
    ensures Enabled(Written(s, n), WriteOne) && Next(Written(s, n), WriteOne) == Written(s, n + 1)
  {
    assert s.rest[..n + 1] == s.rest[..n] + [s.rest[n]];
    WritesInTwo(s.device, s.rest[..n], [s.rest[n]]);
    OneWrite(ApplyAll(s.device, s.rest[..n]), s.rest[n]);
    assert s.rest[n..][1..] == s.rest[n + 1..];
  }

  lemma {:induction false} RunWrites(root: System, acts: seq<Act>, n: nat)
    requires IsRun(root, acts) && n <= |After(root, acts).rest|
    ensures IsRun(root, acts + Writes(n)) && After(root, acts + Writes(n)) == Written(After(root, acts), n)
  {
    var s := After(root, acts);
    if n == 0 {
      assert acts + Writes(0) == acts;
      assert s.rest[..0] == [] && s.rest[0..] == s.rest;
    } else {
      hide Next;
      hide Written;
      RunWrites(root, acts, n - 1);
      Regroup(acts, Writes(n - 1), [WriteOne]);
      OneMoreWritten(s, n - 1);
      RunSnoc(root, acts + Writes(n - 1), WriteOne);
    }
  }

  /** A rotation persisted in full, and then discarded up to a crash. */
  function PersistRun(keychain: bool, a: Key, at: string): seq<Act> {
    [BeginPersist(a, at)] + Writes(|PersistWrites(keychain, a, at)|)
  }

  function DiscardRun(keychain: bool, a: Key, at: string): seq<Act> {
    PersistRun(keychain, a, at) + [BeginDiscard] + Writes(2) + [Crash]
  }

  /** ... and a second one begun, up to a crash after its first write. */
  function TornRun(keychain: bool, a: Key, at: string, b: Key, bt: string): seq<Act> {
    DiscardRun(keychain, a, at) + [BeginPersist(b, bt)] + Writes(1)
  }

  lemma {:induction false} PersistRuns(keychain: bool, k: Key, a: Key, at: string)
    requires at != ""
    ensures var root, acts := Linked(keychain, k), PersistRun(keychain, a, at);
            && IsRun(root, acts)
            && var s := After(root, acts);
               s.rest == [] && s.cloud == k && s.device.keychain == keychain && LoadPending(s.device) == Some(PendingKey(a, at))
  {
    var root, ws := Linked(keychain, k), PersistWrites(keychain, a, at);
    InstallWritten(Device(keychain, None, None, Absent, Absent, Absent, Absent, ""), k);
    assert [] + [BeginPersist(a, at)] == [BeginPersist(a, at)];
    RunSnoc(root, [], BeginPersist(a, at));
    RunWrites(root, [BeginPersist(a, at)], |ws|);
    assert ws[..|ws|] == ws;
    PersistWritten(root.device, a, at);
  }

  /** A discard cut after two of its writes: nothing is pending and the time is still there. */
  lemma {:induction false} DiscardCutAtTwo(s: System)
    requires Enabled(s, BeginDiscard)
    ensures var t := Written(Next(s, BeginDiscard), 2);
            LoadPending(t.device).None? && t.device.pendingAt == s.device.pendingAt && t.device.keychain == s.device.keychain
  {
    assert ClearWrites()[..2] == [DeleteKcPending, SetPendingSecret(Blank)];
    TwoWrites(s.device, DeleteKcPending, SetPendingSecret(Blank));
  }

  lemma {:induction false} DiscardRuns(keychain: bool, k: Key, a: Key, at: string)
    requires a != k && at != ""
    ensures var root, acts := Linked(keychain, k), DiscardRun(keychain, a, at);
            && IsRun(root, acts)
            && var s := After(root, acts);
               s.rest == [] && s.device.keychain == keychain && LoadPending(s.device).None? && s.device.pendingAt == at
  {
    hide PersistRun;
    hide Written;
    var root, acts := Linked(keychain, k), PersistRun(keychain, a, at);
    PersistRuns(keychain, k, a, at);
    DiscardCutAtTwo(After(root, acts));
    RunSnoc(root, acts, BeginDiscard);
    RunWrites(root, acts + [BeginDiscard], 2);
    RunSnoc(root, acts + [BeginDiscard] + Writes(2), Crash);
  }

  /** On any device, with or without a keychain, some run leaves a new key pending under an old time. */
  lemma {:induction false} StaleTimeCanPairWithANewKey(keychain: bool, k: Key, a: Key, at: string, b: Key, bt: string)
    requires a != k && at != "" && bt != ""
    ensures var root, acts := Linked(keychain, k), TornRun(keychain, a, at, b, bt);
            IsRun(root, acts) && LoadPending(After(root, acts).device) == Some(PendingKey(b, at))
  {
    hide DiscardRun;
    var root, acts := Linked(keychain, k), DiscardRun(keychain, a, at);
    DiscardRuns(keychain, k, a, at);
    RunSnoc(root, acts, BeginPersist(b, bt));
    RunWrites(root, acts + [BeginPersist(b, bt)], 1);
    PersistPrefix(After(root, acts).device, b, bt, 1);
  }
}
