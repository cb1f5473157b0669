/** The device's signing key and the key of a rotation in flight, each write to a keychain slot or a meta row on its own. */
module Identity {
  import opened Prelude

  /** A key pair; its secret and its public half stand for it wherever they are stored. */
  datatype Key = Key(id: nat)

  /** A meta row: never written, cleared to the empty string, or holding a key. */
  datatype Slot = Absent | Blank | Of(key: Key)

  datatype Device = Device(keychain: bool, kcActive: Option<Key>, kcPending: Option<Key>,
                           fallback: Slot, pubkey: Slot, pendingSecret: Slot, pendingPub: Slot, pendingAt: string)

  datatype LoadedKey = NoKey | Malformed | Loaded(key: Key)

  datatype PendingKey = PendingKey(key: Key, rotatedAt: string)

  /** Keychain first, then the meta fallback; a cleared fallback is not a seed and fails to decode. */
  function LoadKey(d: Device): LoadedKey {
    if d.keychain && d.kcActive.Some? then Loaded(d.kcActive.value)
    else
      match d.fallback
      case Absent => NoKey
      case Blank => Malformed
      case Of(k) => Loaded(k)
  }

  /** `rotatedAt` says whether a rotation is pending; the secret follows the same ladder. */
  function LoadPending(d: Device): Option<PendingKey> {
    if d.pendingAt == "" then None
    else if d.keychain && d.kcPending.Some? then Some(PendingKey(d.kcPending.value, d.pendingAt))
    else if d.pendingSecret.Of? then Some(PendingKey(d.pendingSecret.key, d.pendingAt))
    else None
  }

  // ---- every operation as its writes, in order ---------------------------------------------

  datatype Write =
    | SetKcActive(key: Key)
    | SetKcPending(key: Key)
    | DeleteKcPending
    | SetFallback(slot: Slot)
    | SetPubkey(slot: Slot)
    | SetPendingSecret(slot: Slot)
    | SetPendingPub(slot: Slot)
    | SetPendingAt(at: string)

  /** Keychain writes do nothing where there is no keychain. */
  function Apply1(d: Device, w: Write): Device {
    match w
    case SetKcActive(k) => if d.keychain then d.(kcActive := Some(k)) else d
    case SetKcPending(k) => if d.keychain then d.(kcPending := Some(k)) else d
    case DeleteKcPending => if d.keychain then d.(kcPending := None) else d
    case SetFallback(s) => d.(fallback := s)
    case SetPubkey(s) => d.(pubkey := s)
    case SetPendingSecret(s) => d.(pendingSecret := s)
    case SetPendingPub(s) => d.(pendingPub := s)
    case SetPendingAt(at) => d.(pendingAt := at)
  }

  function ApplyAll(d: Device, ws: seq<Write>): Device
    decreases |ws|
  {
    if ws == [] then d else ApplyAll(Apply1(d, ws[0]), ws[1..])
  }

  function SecretWrites(keychain: bool, k: Key): seq<Write> {
    if keychain then [SetKcActive(k), SetFallback(Blank)] else [SetFallback(Of(k))]
  }

  function InstallWrites(keychain: bool, k: Key): seq<Write> {
    if keychain then [SetKcActive(k), SetFallback(Blank), SetPubkey(Of(k))] else [SetFallback(Of(k)), SetPubkey(Of(k))]
  }

  function PersistWrites(keychain: bool, k: Key, at: string): seq<Write> {
    if keychain then [SetKcPending(k), SetPendingSecret(Blank), SetPendingPub(Of(k)), SetPendingAt(at)]
    else [SetPendingSecret(Of(k)), SetPendingPub(Of(k)), SetPendingAt(at)]
  }

  function ClearWrites(): seq<Write> {
    [DeleteKcPending, SetPendingSecret(Blank), SetPendingPub(Blank), SetPendingAt("")]
  }

  function PromoteWrites(keychain: bool, k: Key): seq<Write> {
    InstallWrites(keychain, k) + ClearWrites()
  }

  lemma {:induction false} WritesInTwo(d: Device, a: seq<Write>, b: seq<Write>)
    ensures ApplyAll(d, a + b) == ApplyAll(ApplyAll(d, a), b)
    decreases |a|
  {
    if a == [] {
      assert a + b == b;
    } else {
      assert (a + b)[1..] == a[1..] + b;
      WritesInTwo(Apply1(d, a[0]), a[1..], b);
    }
  }

  lemma {:induction false} OneWrite(d: Device, a: Write)
    ensures ApplyAll(d, [a]) == Apply1(d, a)
  {
    assert [a][1..] == [];
  }

  lemma {:induction false} TwoWrites(d: Device, a: Write, b: Write)
    ensures ApplyAll(d, [a, b]) == Apply1(Apply1(d, a), b)
  {
    assert [a, b][1..] == [b];
    OneWrite(Apply1(d, a), b);
  }

  lemma {:induction false} ThreeWrites(d: Device, a: Write, b: Write, c: Write)
    ensures ApplyAll(d, [a, b, c]) == Apply1(Apply1(Apply1(d, a), b), c)
  {
    assert [a, b, c][1..] == [b, c];
    TwoWrites(Apply1(d, a), b, c);
  }

  lemma {:induction false} FourWrites(d: Device, a: Write, b: Write, c: Write, e: Write)
    ensures ApplyAll(d, [a, b, c, e]) == Apply1(Apply1(Apply1(Apply1(d, a), b), c), e)
  {
    assert [a, b, c, e][1..] == [b, c, e];
    ThreeWrites(Apply1(d, a), b, c, e);
  }

  /** What an install leaves. */
  lemma {:induction false} InstallWritten(d: Device, k: Key)
    ensures ApplyAll(d, InstallWrites(d.keychain, k)) ==
            if d.keychain then d.(kcActive := Some(k), fallback := Blank, pubkey := Of(k))
            else d.(fallback := Of(k), pubkey := Of(k))
  {
    if d.keychain {
      ThreeWrites(d, SetKcActive(k), SetFallback(Blank), SetPubkey(Of(k)));
    } else {
      TwoWrites(d, SetFallback(Of(k)), SetPubkey(Of(k)));
    }
  }

  /** What a persist leaves. */
  lemma {:induction false} PersistWritten(d: Device, k: Key, at: string)
    ensures ApplyAll(d, PersistWrites(d.keychain, k, at)) ==
            if d.keychain then d.(kcPending := Some(k), pendingSecret := Blank, pendingPub := Of(k), pendingAt := at)
            else d.(pendingSecret := Of(k), pendingPub := Of(k), pendingAt := at)
  {
    if d.keychain {
      FourWrites(d, SetKcPending(k), SetPendingSecret(Blank), SetPendingPub(Of(k)), SetPendingAt(at));
    } else {
      ThreeWrites(d, SetPendingSecret(Of(k)), SetPendingPub(Of(k)), SetPendingAt(at));
    }
  }

  /** No slot holds anything of a pending rotation. */
  predicate NothingPending(d: Device) {
    && LoadPending(d).None? && d.pendingAt == "" && !d.pendingSecret.Of? && !d.pendingPub.Of?
    && (d.keychain ==> d.kcPending.None?)
  }

  /** Clearing erases the pending key wherever it was stored, and leaves the active one alone. */
  lemma {:induction false} ClearErases(d: Device)
    ensures var e := ApplyAll(d, ClearWrites());
            NothingPending(e) && e.keychain == d.keychain && LoadKey(e) == LoadKey(d) && e.pubkey == d.pubkey
  {
    FourWrites(d, DeleteKcPending, SetPendingSecret(Blank), SetPendingPub(Blank), SetPendingAt(""));
  }

  /** A key just persisted is the key a retry loads. */
  lemma {:induction false} PersistedIsPending(d: Device, k: Key, at: string)
    requires at != ""
    ensures LoadPending(ApplyAll(d, PersistWrites(d.keychain, k, at))) == Some(PendingKey(k, at))
    ensures LoadKey(ApplyAll(d, PersistWrites(d.keychain, k, at))) == LoadKey(d)
    ensures ApplyAll(d, PersistWrites(d.keychain, k, at)).pendingPub == Of(k)
    ensures ApplyAll(d, PersistWrites(d.keychain, k, at)).pubkey == d.pubkey
  {
    PersistWritten(d, k, at);
  }

  class DeviceStore {
    const keychain: bool
    var kcActive: Option<Key>
    var kcPending: Option<Key>
    var fallback: Slot
    var pubkey: Slot
    var pendingSecret: Slot
    var pendingPub: Slot
    var pendingAt: string

    constructor (keychain: bool)
      ensures State() == Device(keychain, None, None, Absent, Absent, Absent, Absent, "")
    {
      this.keychain := keychain;
      kcActive, kcPending, fallback, pubkey, pendingSecret, pendingPub := None, None, Absent, Absent, Absent, Absent;
      pendingAt := "";
    }

    function State(): Device
      reads this
    {
      Device(keychain, kcActive, kcPending, fallback, pubkey, pendingSecret, pendingPub, pendingAt)
    }

    method KeychainSet(pending: bool, k: Key) returns (ok: bool)
      modifies this`kcActive, this`kcPending
      ensures ok == keychain
      ensures State() == Apply1(old(State()), if pending then SetKcPending(k) else SetKcActive(k))
    {
      ok := keychain;
      if ok {
        if pending { kcPending := Some(k); } else { kcActive := Some(k); }
      }
    }

    method PersistSecret(k: Key)
      modifies this
      ensures State() == ApplyAll(old(State()), SecretWrites(keychain, k))
    {
      TwoWrites(State(), SetKcActive(k), SetFallback(Blank));
      var ok := KeychainSet(false, k);
      if ok {
        fallback := Blank;
        return;
      }
      fallback := Of(k);
    }

    /** Only after the cloud has accepted the key. */
    method InstallRotatedKey(k: Key)
      modifies this
      ensures State() == ApplyAll(old(State()), InstallWrites(keychain, k))
    {
      ghost var d := State();
      PersistSecret(k);
      pubkey := Of(k);
      WritesInTwo(d, SecretWrites(keychain, k), [SetPubkey(Of(k))]);
      assert InstallWrites(keychain, k) == SecretWrites(keychain, k) + [SetPubkey(Of(k))];
    }

    /** Before the rotation is posted, and only when nothing is pending. */
    method PersistPendingKey(k: Key, rotatedAt: string)
      modifies this
      ensures State() == ApplyAll(old(State()), PersistWrites(keychain, k, rotatedAt))
    {
      PersistWritten(State(), k, rotatedAt);
      var ok := KeychainSet(true, k);
      if ok {
        pendingSecret := Blank;
      } else {
        pendingSecret := Of(k);
      }
      pendingPub := Of(k);
      pendingAt := rotatedAt;
    }

    method ClearPendingKey()
      modifies this
      ensures State() == ApplyAll(old(State()), ClearWrites())
    {
      if keychain {
        kcPending := None;
      }
      pendingSecret := Blank;
      pendingPub := Blank;
      pendingAt := "";
    }

    method PromotePendingKey()
      modifies this
      ensures State() ==
              if LoadPending(old(State())).None? then old(State())
              else ApplyAll(old(State()), PromoteWrites(keychain, LoadPending(old(State())).value.key))
    {
      ghost var d := State();
      var pending := LoadPending(State());
      if pending.None? {
        return;
      }
      InstallRotatedKey(pending.value.key);
      ClearPendingKey();
      WritesInTwo(d, InstallWrites(keychain, pending.value.key), ClearWrites());
    }
  }
}
