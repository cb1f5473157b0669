/**
 Agent wall-clock: a gap opened by a tool call is credited up to `maxSpan`, every other gap is
 clamped to `idle`; nothing is discarded. One sample is a time stamped with "opens a tool call".
 */
module AgentTime {
  import opened Prelude
  import opened Timeline
  import opened Accounting
  import opened Ties

  datatype AgentPolicy = AgentPolicy(idle: int, maxSpan: int) {
    ghost predicate Sane() {
      0 <= idle <= maxSpan
    }
  }

  /** The configured policy: `maxSpan` is floored at `idle`. */
  function ConfiguredPolicy(idleSeconds: nat, maxSpanSeconds: nat): (p: AgentPolicy)
    ensures p.Sane()
  {
    var idle, span := idleSeconds * NANOS, maxSpanSeconds * NANOS;
    AgentPolicy(idle, if span >= idle then span else idle)
  }

  function Min(a: int, b: int): int {
    if a <= b then a else b
  }

  function Ceiling(opens: bool, policy: AgentPolicy): int {
    if opens then policy.maxSpan else policy.idle
  }

  /** The credit of one gap, as the live timer asks for it. */
  function AgentGapSeconds(gap: int, opens: bool, policy: AgentPolicy): int {
    if gap <= 0 then 0 else WholeSeconds(Min(gap, Ceiling(opens, policy)))
  }

  /** The credit of a whole sorted timeline. */
  function AgentActiveOf(s: seq<Stamped<bool>>, policy: AgentPolicy): int {
    if |s| < 2 then 0
    else
      var a, b := s[|s| - 2], s[|s| - 1];
      var delta := b.at - a.at;
      var last := if delta <= 0 then 0
                  else if a.tag then WholeSeconds(Min(delta, policy.maxSpan))
                  else WholeSeconds(Min(delta, policy.idle));
      AgentActiveOf(s[..|s| - 1], policy) + last
  }

  function AgentActiveSeconds(samples: seq<Stamped<bool>>, policy: AgentPolicy): int {
    AgentActiveOf(SortByTime(samples), policy)
  }

  /** The ceilings of all gaps of a sorted timeline, added up. */
  function SumCeilings(s: seq<Stamped<bool>>, policy: AgentPolicy): int {
    if |s| < 2 then 0
    else SumCeilings(s[..|s| - 1], policy) + WholeSeconds(Ceiling(s[|s| - 2].tag, policy))
  }

  lemma {:induction false} AgentSnoc(s: seq<Stamped<bool>>, x: Stamped<bool>, policy: AgentPolicy)
    requires s != []
    ensures AgentActiveOf(s + [x], policy) ==
            AgentActiveOf(s, policy) + AgentGapSeconds(x.at - s[|s| - 1].at, s[|s| - 1].tag, policy)
  {
    assert (s + [x])[..|s|] == s;
  }

  /** The live timer is a prediction that comes true: settling one more sample banks exactly its gap. */
  lemma {:induction false} LiveTailSettles(samples: seq<Stamped<bool>>, x: Stamped<bool>, policy: AgentPolicy)
    requires samples != []
    requires forall y :: y in samples ==> y.at <= x.at
    ensures var last := SortByTime(samples)[|samples| - 1];
            AgentActiveSeconds(samples + [x], policy) ==
            AgentActiveSeconds(samples, policy) + AgentGapSeconds(x.at - last.at, last.tag, policy)
  {
    var s := SortByTime(samples);
    SortMember(samples, s[|s| - 1]);
    assert SortByTime(samples + [x]) == s + [x] by {
      assert s[|s| - 1].at <= x.at;
    }
    AgentSnoc(s, x, policy);
  }

  /** Clamped, never discarded, never more than the wall clock. */
  ghost predicate Bounded(s: seq<Stamped<bool>>, policy: AgentPolicy)
    requires s != []
  {
    && ActiveOf(Untag(s), policy.idle) <= AgentActiveOf(s, policy)
    && AgentActiveOf(s, policy) <= WholeSeconds(s[|s| - 1].at - s[0].at)
    && AgentActiveOf(s, policy) <= SumCeilings(s, policy)
  }

  lemma {:induction false} AgentTimeIsBounded(s: seq<Stamped<bool>>, policy: AgentPolicy)
    requires Sorted(s) && s != [] && policy.Sane()
    ensures Bounded(s, policy)
  {
    if |s| >= 2 {
      var n := |s| - 1;
      AgentTimeIsBounded(s[..n], policy);
      assert Untag(s)[..n] == Untag(s[..n]);
      GapIsBounded(s[n].at - s[n - 1].at, s[n - 1].tag, policy);
      WholeSecondsAdd(s[n - 1].at - s[0].at, s[n].at - s[n - 1].at);
    }
  }

  lemma {:induction false} GapIsBounded(delta: int, opens: bool, policy: AgentPolicy)
    requires 0 <= delta && policy.Sane()
    ensures Credit(delta, policy.idle) <= AgentGapSeconds(delta, opens, policy)
    ensures AgentGapSeconds(delta, opens, policy) <= WholeSeconds(delta)
    ensures AgentGapSeconds(delta, opens, policy) <= WholeSeconds(Ceiling(opens, policy))
  {
  }

  /** The bounds over samples in any order. */
  lemma {:induction false} AgentActiveIsBounded(samples: seq<Stamped<bool>>, policy: AgentPolicy, lo: int, hi: int)
    requires policy.Sane() && lo <= hi
    requires forall x :: x in samples ==> lo <= x.at <= hi
    ensures ActiveSeconds(Untag(samples), policy.idle) <= AgentActiveSeconds(samples, policy)
    ensures AgentActiveSeconds(samples, policy) <= WholeSeconds(hi - lo)
    ensures AgentActiveSeconds(samples, policy) <= SumCeilings(SortByTime(samples), policy)
  {
    var s := SortByTime(samples);
    SortUntag(samples);
    if s != [] {
      SortSorted(samples);
      AgentTimeIsBounded(s, policy);
      SortMember(samples, s[0]);
      SortMember(samples, s[|s| - 1]);
    }
  }

  /** What a gap earns, by what opens it. */
  function AgentWorth(policy: AgentPolicy): (bool, int) -> int {
    (opens: bool, gap: int) => AgentGapSeconds(gap, opens, policy)
  }

  lemma {:induction false} AgentActiveIsOpened(s: seq<Stamped<bool>>, policy: AgentPolicy)
    ensures AgentActiveOf(s, policy) == Opened(s, AgentWorth(policy))
  {
    if |s| >= 2 { AgentActiveIsOpened(s[..|s| - 1], policy); }
  }

  /** A tool call and another sample tie ahead of a gap that the two ceilings credit differently. */
  ghost predicate ToolTieMatters(samples: seq<Stamped<bool>>, policy: AgentPolicy) {
    exists tool, other, next ::
      tool in samples && other in samples && next in samples && OpensEitherWay(samples, policy, tool, other, next)
  }

  ghost predicate OpensEitherWay(samples: seq<Stamped<bool>>, policy: AgentPolicy,
                                 tool: Stamped<bool>, other: Stamped<bool>, next: Stamped<bool>) {
    && tool.tag && !other.tag && tool.at == other.at < next.at
    && (forall o :: o in samples ==> !(tool.at < o.at < next.at))
    && WholeSeconds(Min(next.at - tool.at, policy.idle)) != WholeSeconds(Min(next.at - tool.at, policy.maxSpan))
  }

  lemma {:induction false} EitherWayIsMatters(samples: seq<Stamped<bool>>, policy: AgentPolicy,
                                              x: Stamped<bool>, y: Stamped<bool>, z: Stamped<bool>)
    ensures Matters(samples, AgentWorth(policy), x, y, z) <==>
            OpensEitherWay(samples, policy, x, y, z) || OpensEitherWay(samples, policy, y, x, z)
  {
    hide WholeSeconds;
    hide Min;
  }

  lemma {:induction false} ToolTieIsATie(samples: seq<Stamped<bool>>, policy: AgentPolicy)
    ensures ToolTieMatters(samples, policy) <==> TieMatters(samples, AgentWorth(policy))
  {
    hide Matters;
    hide OpensEitherWay;
    forall x, y, z
      ensures Matters(samples, AgentWorth(policy), x, y, z) <==>
              OpensEitherWay(samples, policy, x, y, z) || OpensEitherWay(samples, policy, y, x, z)
    {
      EitherWayIsMatters(samples, policy, x, y, z);
    }
  }

  /** Every order of the samples gives this total. */
  ghost predicate AgentOrderFree(samples: seq<Stamped<bool>>, policy: AgentPolicy) {
    forall other: seq<Stamped<bool>> :: multiset(other) == multiset(samples) ==>
      AgentActiveSeconds(other, policy) == AgentActiveSeconds(samples, policy)
  }

  /**
   The order in which samples arrive never changes the agent total, if and only if no tool call ties with
   another sample ahead of a gap on which the two ceilings differ.
   */
  lemma {:induction false} AgentOrderFreeIff(samples: seq<Stamped<bool>>, policy: AgentPolicy)
    ensures AgentOrderFree(samples, policy) <==> !ToolTieMatters(samples, policy)
  {
    var worth := AgentWorth(policy);
    OrderFreeIff(samples, worth);
    ToolTieIsATie(samples, policy);
    forall other: seq<Stamped<bool>>
      ensures AgentActiveSeconds(other, policy) == Opened(SortByTime(other), worth)
    {
      AgentActiveIsOpened(SortByTime(other), policy);
    }
  }

  /** Such a tie: the sample that comes last at that time opens the gap. */
  lemma {:induction false} AgentActiveDependsOnTies()
    ensures var tool, other, later := Stamped(0, true), Stamped(0, false), Stamped(3600 * NANOS, false);
            var policy := AgentPolicy(300 * NANOS, 28800 * NANOS);
            && AgentActiveSeconds([tool, other, later], policy) == 300
            && AgentActiveSeconds([other, tool, later], policy) == 3600
  {
    TwoTiedThenLater(true, false);
    TwoTiedThenLater(false, true);
  }

  lemma {:induction false} TwoTiedThenLater(first: bool, second: bool)
    ensures AgentActiveSeconds([Stamped(0, first), Stamped(0, second), Stamped(3600 * NANOS, false)],
                               AgentPolicy(300 * NANOS, 28800 * NANOS)) == if second then 3600 else 300
  {
    var s := [Stamped(0, first), Stamped(0, second), Stamped(3600 * NANOS, false)];
    SortOfSorted(s);
    assert s[..2] == [Stamped(0, first), Stamped(0, second)];
    assert AgentActiveOf(s[..2], AgentPolicy(300 * NANOS, 28800 * NANOS)) == 0;
  }
}
