/**
 Two-phase key rotation against a cloud that holds one key, with a crash possible between any two
 writes. One driver runs at a time; it probes or posts only what it has loaded, promotes only a key
 the cloud holds, discards only a key the cloud does not hold, and starts afresh only when nothing is
 pending.
 */
module Rotation {
  import opened Prelude
  import opened Identity

  datatype Job = Persisting | Promoting(key: Key) | Discarding

  /** `rest` is what the running operation has yet to write; `posted` is the rotation posted and not yet resolved. */
  datatype System = System(device: Device, cloud: Key, posted: Option<PendingKey>, job: Job, rest: seq<Write>)

  datatype Act =
    | BeginPersist(key: Key, rotatedAt: string)
    | Post(accepted: bool)
    | BeginPromote
    | BeginDiscard
    | WriteOne
    | Crash

  /** Whether the call rules allow an act. */
  predicate Enabled(s: System, act: Act) {
    match act
    case BeginPersist(_, at) => s.rest == [] && LoadPending(s.device).None? && at != ""
    case Post(_) => s.rest == [] && LoadPending(s.device).Some?
    case BeginPromote => s.rest == [] && LoadPending(s.device).Some? && LoadPending(s.device).value.key == s.cloud
    case BeginDiscard => s.rest == [] && LoadPending(s.device).Some? && LoadPending(s.device).value.key != s.cloud
    case WriteOne => s.rest != []
    case Crash => true
  }

  /** The cloud takes the posted key only from the key it holds; it may also refuse. */
  function Next(s: System, act: Act): System
    requires Enabled(s, act)
  {
    var d := s.device;
    match act
    case BeginPersist(k, at) => s.(job := Persisting, rest := PersistWrites(d.keychain, k, at))
    case Post(accepted) =>
      var p := LoadPending(d).value;
      s.(posted := Some(p), cloud := if accepted && LoadKey(d) == Loaded(s.cloud) then p.key else s.cloud)
    case BeginPromote =>
      s.(posted := None, job := Promoting(s.cloud), rest := PromoteWrites(d.keychain, s.cloud))
    case BeginDiscard => s.(posted := None, job := Discarding, rest := ClearWrites())
    case WriteOne => s.(device := Apply1(d, s.rest[0]), rest := s.rest[1..])
    case Crash => s.(rest := [])
  }

  /** A linked device right after its first key was created and claimed. */
  function Linked(keychain: bool, k: Key): System {
    var blank := Device(keychain, None, None, Absent, Absent, Absent, Absent, "");
    System(ApplyAll(blank, InstallWrites(keychain, k)), k, None, Persisting, [])
  }

  ghost predicate IsRun(s: System, acts: seq<Act>)
    decreases |acts|, 0
  {
    acts == [] || (IsRun(s, acts[..|acts| - 1]) && Enabled(After(s, acts[..|acts| - 1]), acts[|acts| - 1]))
  }

  ghost function After(s: System, acts: seq<Act>): System
    requires IsRun(s, acts)
    decreases |acts|, 1
  {
    if acts == [] then s else Next(After(s, acts[..|acts| - 1]), acts[|acts| - 1])
  }

  // ---- what every state keeps --------------------------------------------------------------

  ghost predicate Sound(d: Device) {
    LoadKey(d).Loaded? && (d.keychain ==> d.kcActive.Some? && !d.pendingSecret.Of?)
  }

  function Active(d: Device): Key
    requires LoadKey(d).Loaded?
  {
    LoadKey(d).key
  }

  ghost predicate IsPending(d: Device, k: Key) {
    LoadPending(d).Some? && LoadPending(d).value.key == k
  }

  /** The key the cloud holds can be loaded. */
  ghost predicate NotStranded(d: Device, cloud: Key) {
    LoadKey(d) == Loaded(cloud) || IsPending(d, cloud)
  }

  /** The stored public key is the active key's, or its promotion is still to be finished. */
  ghost predicate PubkeyFollows(d: Device)
    requires LoadKey(d).Loaded?
  {
    d.pubkey == Of(Active(d)) || IsPending(d, Active(d))
  }

  /** How far a promotion has come after `n` of its writes. */
  ghost predicate PromotedTo(d: Device, k: Key, n: nat)
    requires LoadKey(d).Loaded?
  {
    && (n > 0 ==> Active(d) == k)
    && (n < |InstallWrites(d.keychain, k)| ==> IsPending(d, k))
    && (n >= |InstallWrites(d.keychain, k)| ==> d.pubkey == Of(k))
  }

  /** `rest` is what a promotion has left to do after `n` of its writes. */
  ghost predicate PromotingFrom(d: Device, rest: seq<Write>, k: Key, n: nat)
    requires LoadKey(d).Loaded?
  {
    var ws := PromoteWrites(d.keychain, k);
    n <= |ws| && rest == ws[n..] && PromotedTo(d, k, n)
  }

  ghost predicate JobHolds(s: System)
    requires Sound(s.device)
  {
    match s.job
    case Persisting => Active(s.device) == s.cloud && s.device.pubkey == Of(s.cloud) && PersistRest(s.device.keychain, s.rest)
    case Discarding => Active(s.device) == s.cloud && s.device.pubkey == Of(s.cloud) && ClearRest(s.rest)
    case Promoting(k) =>
      k == s.cloud && exists n: nat :: PromotingFrom(s.device, s.rest, k, n)
  }

  /** Only pending slots are written, and where there is a keychain the pending secret only blank. */
  ghost predicate PersistRest(keychain: bool, ws: seq<Write>) {
    forall w :: w in ws ==>
      w.SetKcPending? || w.SetPendingPub? || w.SetPendingAt? || (w.SetPendingSecret? && (keychain ==> !w.slot.Of?))
  }

  ghost predicate ClearRest(ws: seq<Write>) {
    forall w :: w in ws ==>
      w.DeleteKcPending? || w.SetPendingPub? || w.SetPendingAt? || (w.SetPendingSecret? && !w.slot.Of?)
  }

  ghost predicate Inv(s: System) {
    && Sound(s.device)
    && NotStranded(s.device, s.cloud)
    && PubkeyFollows(s.device)
    && (s.posted.Some? ==> s.rest == [] && LoadPending(s.device) == s.posted)
    && (s.rest != [] ==> JobHolds(s))
  }

  lemma {:induction false} LinkedHolds(keychain: bool, k: Key)
    ensures Inv(Linked(keychain, k))
  {
    var blank := Device(keychain, None, None, Absent, Absent, Absent, Absent, "");
    InstallWritten(blank, k);
  }

  lemma {:induction false} BeginHolds(s: System, act: Act)
    requires Inv(s) && Enabled(s, act) && (act.BeginPersist? || act.BeginPromote? || act.BeginDiscard?)
    ensures Inv(Next(s, act))
  {
    if act.BeginPromote? {
      var ws := PromoteWrites(s.device.keychain, s.cloud);
      assert ws[0..] == ws;
      assert PromotingFrom(s.device, ws, s.cloud, 0);
    }
  }

  lemma {:induction false} PersistWriteHolds(s: System)
    requires Inv(s) && s.rest != [] && s.job.Persisting?
    ensures Inv(Next(s, WriteOne))
  {
    assert s.rest[0] in s.rest;
  }

  lemma {:induction false} DiscardWriteHolds(s: System)
    requires Inv(s) && s.rest != [] && s.job.Discarding?
    ensures Inv(Next(s, WriteOne))
  {
    assert s.rest[0] in s.rest;
  }

  lemma {:induction false} PromoteWriteHolds(s: System)
    requires Inv(s) && s.rest != [] && s.job.Promoting?
    ensures Inv(Next(s, WriteOne))
  {
    var k := s.job.key;
    var n: nat :| PromotingFrom(s.device, s.rest, k, n);
    hide PromotedTo;
    PromoteStep(s, k, n);
    PromotedHolds(Next(s, WriteOne), k, n + 1);
  }

  /** The system after one more write of a promotion that has written `n`. */
  lemma {:induction false} PromoteStep(s: System, k: Key, n: nat)
    requires Inv(s) && s.rest != [] && s.job == Promoting(k) && k == s.cloud
    requires PromotingFrom(s.device, s.rest, k, n)
    ensures var t := Next(s, WriteOne);
            Sound(t.device) && t.posted.None? && PromotingFrom(t.device, t.rest, k, n + 1)
  {
    var ws := PromoteWrites(s.device.keychain, k);
    assert s.rest[0] == ws[n] && s.rest[1..] == ws[n + 1..];
    PromoteOneMore(s.device, k, n);
  }

  /** A promotion under way keeps everything else that every state keeps. */
  lemma {:induction false} PromotedHolds(s: System, k: Key, n: nat)
    requires Sound(s.device) && s.posted.None? && s.job == Promoting(k) && k == s.cloud
    requires 0 < n && PromotingFrom(s.device, s.rest, k, n)
    ensures Inv(s)
  {
  }

  lemma {:induction false} PromoteOneMore(d: Device, k: Key, n: nat)
    requires Sound(d) && n < |PromoteWrites(d.keychain, k)| && PromotedTo(d, k, n)
    ensures var e := Apply1(d, PromoteWrites(d.keychain, k)[n]);
            Sound(e) && e.keychain == d.keychain && PromotedTo(e, k, n + 1)
  {
    var ws, i := PromoteWrites(d.keychain, k), InstallWrites(d.keychain, k);
    assert n < |i| ==> ws[n] == i[n];
    assert n >= |i| ==> ws[n] == ClearWrites()[n - |i|];
  }

  lemma {:induction false} StepHolds(s: System, act: Act)
    requires Inv(s) && Enabled(s, act)
    ensures Inv(Next(s, act))
  {
    match act
    case BeginPersist(_, _) => BeginHolds(s, act);
    case Post(_) =>
    case BeginPromote => BeginHolds(s, act);
    case BeginDiscard => BeginHolds(s, act);
    case WriteOne =>
      match s.job {
        case Persisting => PersistWriteHolds(s);
        case Promoting(_) => PromoteWriteHolds(s);
        case Discarding => DiscardWriteHolds(s);
      }
    case Crash =>
  }

  lemma {:induction false} RunHolds(keychain: bool, k: Key, acts: seq<Act>)
    requires IsRun(Linked(keychain, k), acts)
    ensures Inv(After(Linked(keychain, k), acts))
  {
    if acts == [] {
      LinkedHolds(keychain, k);
    } else {
      RunHolds(keychain, k, acts[..|acts| - 1]);
      StepHolds(After(Linked(keychain, k), acts[..|acts| - 1]), acts[|acts| - 1]);
    }
  }

  /** Whatever is written, posted or cut short by a crash, the cloud's key is always one the device can load. */
  lemma {:induction false} RotationNeverStrands(keychain: bool, k: Key, acts: seq<Act>)
    requires IsRun(Linked(keychain, k), acts)
    ensures var s := After(Linked(keychain, k), acts);
            LoadKey(s.device) == Loaded(s.cloud) || IsPending(s.device, s.cloud)
  {
    RunHolds(keychain, k, acts);
  }

  /** From a post until its promotion or discard begins, every retry loads exactly the posted key and time. */
  lemma {:induction false} RetriesReloadWhatWasPosted(keychain: bool, k: Key, acts: seq<Act>, more: seq<Act>)
    requires IsRun(Linked(keychain, k), acts + more) && IsRun(Linked(keychain, k), acts)
    requires acts != [] && acts[|acts| - 1].Post?
    requires forall a :: a in more ==> !a.BeginPromote? && !a.BeginDiscard?
    ensures var s := After(Linked(keychain, k), acts);
            LoadPending(s.device).Some? && LoadPending(After(Linked(keychain, k), acts + more).device) == LoadPending(s.device)
  {
    PostedStays(keychain, k, acts, more);
    RunHolds(keychain, k, acts);
    RunHolds(keychain, k, acts + more);
  }

  lemma {:induction false} PostedStays(keychain: bool, k: Key, acts: seq<Act>, more: seq<Act>)
    requires IsRun(Linked(keychain, k), acts + more) && IsRun(Linked(keychain, k), acts)
    requires acts != [] && acts[|acts| - 1].Post?
    requires forall a :: a in more ==> !a.BeginPromote? && !a.BeginDiscard?
    ensures var s := After(Linked(keychain, k), acts);
            s.posted.Some? && After(Linked(keychain, k), acts + more).posted == s.posted
  {
    if more == [] {
      assert acts + more == acts;
    } else {
      var n := |more| - 1;
      assert (acts + more)[..|acts + more| - 1] == acts + more[..n];
      assert (acts + more)[|acts + more| - 1] == more[n] && more[n] in more;
      PostedStays(keychain, k, acts, more[..n]);
      RunHolds(keychain, k, acts + more[..n]);
      assert more[n].Post? ==> LoadPending(After(Linked(keychain, k), acts + more[..n]).device) == After(Linked(keychain, k), acts + more[..n]).posted;
    }
  }

  // ---- where the secrets are ---------------------------------------------------------------

  /** No meta row holds a secret, and nothing that is still to be written puts one there. */
  ghost predicate OnlyInKeychain(s: System) {
    && s.device.keychain && !s.device.fallback.Of? && !s.device.pendingSecret.Of?
    && forall w :: w in s.rest ==> (w.SetFallback? || w.SetPendingSecret?) ==> !w.slot.Of?
  }

  lemma {:induction false} StepStaysInKeychain(s: System, act: Act)
    requires OnlyInKeychain(s) && Enabled(s, act)
    ensures OnlyInKeychain(Next(s, act))
  {
    if act.WriteOne? { assert s.rest[0] in s.rest; }
  }

  /** On a device with a keychain no rotation, finished or cut short anywhere, ever leaves a secret in the meta table. */
  lemma {:induction false} SecretsStayInKeychain(k: Key, acts: seq<Act>)
    requires IsRun(Linked(true, k), acts)
    ensures var d := After(Linked(true, k), acts).device; d.keychain && !d.fallback.Of? && !d.pendingSecret.Of?
    ensures OnlyInKeychain(After(Linked(true, k), acts))
  {
    if acts == [] {
      InstallWritten(Device(true, None, None, Absent, Absent, Absent, Absent, ""), k);
    } else {
      SecretsStayInKeychain(k, acts[..|acts| - 1]);
      StepStaysInKeychain(After(Linked(true, k), acts[..|acts| - 1]), acts[|acts| - 1]);
    }
  }

  // ---- finishing a promotion ---------------------------------------------------------------

  /** One uninterrupted `promote_pending_key`. */
  function Promoted(d: Device): Device {
    match LoadPending(d)
    case None => d
    case Some(p) => ApplyAll(d, PromoteWrites(d.keychain, p.key))
  }

  /** A promotion that runs through leaves the key active, its public key stored and nothing pending. */
  lemma {:induction false} PromotionCompletes(d: Device)
    requires LoadPending(d).Some?
    ensures var k := LoadPending(d).value.key;
            LoadKey(Promoted(d)) == Loaded(k) && NothingPending(Promoted(d)) && Promoted(d).pubkey == Of(k)
  {
    var k := LoadPending(d).value.key;
    WritesInTwo(d, InstallWrites(d.keychain, k), ClearWrites());
    InstallWritten(d, k);
    ClearErases(ApplyAll(d, InstallWrites(d.keychain, k)));
  }

  ghost predicate Finished(d: Device, k: Key) {
    LoadKey(d) == Loaded(k) && LoadPending(d).None? && d.pubkey == Of(k)
  }

  lemma {:induction false} PromoteUpTo(d: Device, k: Key, n: nat)
    requires Sound(d) && IsPending(d, k) && n <= |PromoteWrites(d.keychain, k)|
    ensures var e := ApplyAll(d, PromoteWrites(d.keychain, k)[..n]);
            Sound(e) && e.keychain == d.keychain && PromotedTo(e, k, n)
  {
    var ws := PromoteWrites(d.keychain, k);
    for i := 0 to n
      invariant var e := ApplyAll(d, ws[..i]); Sound(e) && e.keychain == d.keychain && PromotedTo(e, k, i)
    {
      assert ws[..i + 1] == ws[..i] + [ws[i]];
      WritesInTwo(d, ws[..i], [ws[i]]);
      var e := ApplyAll(d, ws[..i]);
      OneWrite(e, ws[i]);
      PromoteOneMore(e, k, i);
    }
  }

  /** Cut short after any number of writes, a promotion is finished by calling it again. */
  lemma {:induction false} RetriedPromotionCompletes(d: Device, k: Key, n: nat)
    requires Sound(d) && IsPending(d, k) && n <= |PromoteWrites(d.keychain, k)|
    ensures Finished(Promoted(ApplyAll(d, PromoteWrites(d.keychain, k)[..n])), k)
  {
    var e := ApplyAll(d, PromoteWrites(d.keychain, k)[..n]);
    PromoteUpTo(d, k, n);
    if LoadPending(e).Some? {
      PromotionCompletes(e);
      PendingIsStill(d, k, n);
    }
  }

  lemma {:induction false} StillOnly(d: Device, k: Key, n: nat)
    requires PendingOnly(d, k) && n < |PromoteWrites(d.keychain, k)|
    ensures var e := Apply1(d, PromoteWrites(d.keychain, k)[n]);
            PendingOnly(e, k) && e.keychain == d.keychain
  {
    var ws, i := PromoteWrites(d.keychain, k), InstallWrites(d.keychain, k);
    assert n < |i| ==> ws[n] == i[n];
    assert n >= |i| ==> ws[n] == ClearWrites()[n - |i|];
  }

  /** Part of a promotion never makes another key pending. */
  lemma {:induction false} PendingIsStill(d: Device, k: Key, n: nat)
    requires Sound(d) && IsPending(d, k) && n <= |PromoteWrites(d.keychain, k)|
    ensures var e := ApplyAll(d, PromoteWrites(d.keychain, k)[..n]);
            LoadPending(e).Some? ==> LoadPending(e).value.key == k
  {
    var ws := PromoteWrites(d.keychain, k);
    for i := 0 to n
      invariant var e := ApplyAll(d, ws[..i]); PendingOnly(e, k) && e.keychain == d.keychain
    {
      assert ws[..i + 1] == ws[..i] + [ws[i]];
      WritesInTwo(d, ws[..i], [ws[i]]);
      OneWrite(ApplyAll(d, ws[..i]), ws[i]);
      StillOnly(ApplyAll(d, ws[..i]), k, i);
    }
  }

  /** No other key sits in a pending slot. */
  ghost predicate PendingOnly(d: Device, k: Key) {
    (d.keychain && d.kcPending.Some? ==> d.kcPending.value == k) &&
    (!d.keychain && d.pendingSecret.Of? ==> d.pendingSecret.key == k) &&
    (d.keychain ==> !d.pendingSecret.Of?)
  }
}
