/** The captured events and the three ways accounting reads their kind. */
module Events {
  import opened Prelude
  import opened Timeline

  datatype EventKind =
    | SessionStart | SessionEnd | ManualStart | ManualStop
    | UserPrompt | PermissionDecision | ManualTick
    | PreTool | PostTool | Stop
    | CwdChanged
  {
    predicate IsHumanSignal() {
      UserPrompt? || PermissionDecision? || ManualStart? || ManualTick? || ManualStop?
    }

    predicate IsAgentActivity() {
      PreTool? || PostTool? || Stop?
    }

    predicate OpensAgentSpan() {
      PreTool?
    }
  }

  datatype Trigger = Scheduled

  datatype LineageTag = LineageTag(workspace: Option<string>, spawned: Option<string>, parentSession: Option<string>,
                                   trigger: Option<Trigger>, triggerName: Option<string>)

  /** `id` is a ULID, compared as text; `at` is nanoseconds on the one global timeline. */
  datatype RawEvent = RawEvent(id: string, at: int, session: string, kind: EventKind, cwd: Option<string>,
                               project: Option<string>, lineage: LineageTag)

  const ProjectOf: RawEvent -> Option<string> := (e: RawEvent) => e.project

  /** Whom a gap is attributed to: the project and session of the signal that opens it. */
  datatype Opener = Opener(project: Option<string>, session: string)

  const OpenerOf: RawEvent -> Opener := (e: RawEvent) => Opener(e.project, e.session)

  /** The human signals of a log, each carrying what `key` says of its event. */
  function SignalsBy<K>(events: seq<RawEvent>, key: RawEvent -> K): seq<Stamped<K>> {
    if events == [] then []
    else
      var r, e := SignalsBy(events[..|events| - 1], key), events[|events| - 1];
      if e.kind.IsHumanSignal() then r + [Stamped(e.at, key(e))] else r
  }

  lemma {:induction false} SignalsByRetag<K, L>(events: seq<RawEvent>, key: RawEvent -> K, coarser: K -> L, coarse: RawEvent -> L)
    requires forall e :: e in events ==> coarser(key(e)) == coarse(e)
    ensures Retag(SignalsBy(events, key), coarser) == SignalsBy(events, coarse)
  {
    if events != [] {
      var t, e := events[..|events| - 1], events[|events| - 1];
      SignalsByRetag(t, key, coarser, coarse);
      var s := SignalsBy(t, key);
      assert Retag(s + [Stamped(e.at, key(e))], coarser) == Retag(s, coarser) + [Stamped(e.at, coarser(key(e)))];
    }
  }

  /** A selection of events that goes by what their signals carry selects the signals. */
  lemma {:induction false} SignalsOfFilter<K>(events: seq<RawEvent>, key: RawEvent -> K, p: RawEvent -> bool, q: Stamped<K> -> bool)
    requires forall e :: e in events && e.kind.IsHumanSignal() ==> (p(e) <==> q(Stamped(e.at, key(e))))
    ensures SignalsBy(Filter(events, p), key) == Filter(SignalsBy(events, key), q)
  {
    if events != [] {
      var t, e := events[..|events| - 1], events[|events| - 1];
      assert e in events;
      SignalsOfFilter(t, key, p, q);
      FilterSnoc(SignalsBy(t, key), Stamped(e.at, key(e)), q);
    }
  }

  /** Two selections that agree on human signals leave the same ones. */
  lemma {:induction false} SignalsAgree<K>(events: seq<RawEvent>, key: RawEvent -> K, p: RawEvent -> bool, q: RawEvent -> bool)
    requires forall e :: e in events && e.kind.IsHumanSignal() ==> (p(e) <==> q(e))
    ensures SignalsBy(Filter(events, p), key) == SignalsBy(Filter(events, q), key)
  {
    if events != [] {
      var t, e := events[..|events| - 1], events[|events| - 1];
      assert e in events;
      SignalsAgree(t, key, p, q);
    }
  }

  lemma {:induction false} SignalTimes<K>(events: seq<RawEvent>, key: RawEvent -> K, t: int)
    ensures (exists x :: x in SignalsBy(events, key) && x.at == t) <==>
            exists e :: e in events && e.kind.IsHumanSignal() && e.at == t
  {
    if events != [] {
      var r, e := events[..|events| - 1], events[|events| - 1];
      SignalTimes(r, key, t);
      assert events == r + [e];
      assert (exists x :: x in [Stamped(e.at, key(e))] && x.at == t) <==> e.at == t by {
        assert Stamped(e.at, key(e)) in [Stamped(e.at, key(e))];
      }
      assert (exists f :: f in events && f.kind.IsHumanSignal() && f.at == t) <==>
             (exists f :: f in r && f.kind.IsHumanSignal() && f.at == t) || (e.kind.IsHumanSignal() && e.at == t);
    }
  }

  /** A signal is that of an event of the log. */
  lemma {:induction false} SignalIsAnEvents<K>(events: seq<RawEvent>, key: RawEvent -> K, x: Stamped<K>)
    requires x in SignalsBy(events, key)
    ensures exists e :: e in events && e.kind.IsHumanSignal() && x == Stamped(e.at, key(e))
  {
    var t, e := events[..|events| - 1], events[|events| - 1];
    assert e in events;
    if x in SignalsBy(t, key) { SignalIsAnEvents(t, key, x); }
  }
}
