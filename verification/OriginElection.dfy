/** One update wave: the tracker and any number of polling nodes, for one hash h. Nodes poll, finish
    their origin download, and tell the tracker what they seed, in any order. */
module OriginElection {
  import opened Bytes
  import opened Receipts
  import opened Rendezvous
  import P = PeerFetch

  /** Where a node stands with h. */
  datatype Phase = Away | Waiting | AtOrigin | Holds

  /** `origins` is history: every node that ever went to origin for h. */
  datatype World = World(tracker: Tracker, phase: map<NodeId, Phase>, origins: set<NodeId>)

  /** Poll is a round of the fetch loop, for a node with other content `seeding`; Tell is any other
      announce. */
  datatype Event =
    | Poll(node: NodeId, seeding: set<Content>, now: real)
    | FinishOrigin(node: NodeId)
    | Tell(node: NodeId, seeding: set<Content>, wanted: set<Content>, now: real)

  const Start: World := World(Tracker([], map[]), map[], {})

  function PhaseOf(w: World, n: NodeId): Phase {
    if n in w.phase then w.phase[n] else Away
  }

  function PollOf(h: Content, e: Event): Announce
    requires e.Poll?
  {
    Announce(e.node, e.seeding, {h}, true)
  }

  /** The decision of a poll when listed seeders deliver and no deadline has expired. */
  ghost function Decision(h: Content, t: Tracker, e: Event): P.Decision
    requires e.Poll?
  {
    P.Decide(Answer(Upsert(t, PollOf(h, e), e.now), PollOf(h, e)), e.node, true, false)
  }

  ghost function Next(h: Content, w: World, e: Event): World {
    match e
    case Poll(n, _, now) =>
      var decision := Decision(h, w.tracker, e);
      var phase := match decision case Got => Holds case Origin => AtOrigin case Wait => Waiting;
      World(Upsert(w.tracker, PollOf(h, e), now), w.phase[n := phase],
            if decision == P.Origin then w.origins + {n} else w.origins)
    case FinishOrigin(n) => w.(phase := w.phase[n := Holds])
    case Tell(n, seeding, wanted, now) =>
      w.(tracker := Upsert(w.tracker, Announce(n, seeding, wanted, true), now))
  }

  /** Who may do what: a node that holds h does not fetch it; only holders seed h, and keep seeding
      it; a node that wants h keeps wanting it until it seeds it, and starts wanting it by polling. */
  ghost predicate Allowed(h: Content, w: World, e: Event) {
    match e
    case Poll(n, seeding, _) => PhaseOf(w, n) != Holds && h !in seeding
    case FinishOrigin(n) => PhaseOf(w, n) == AtOrigin
    case Tell(n, seeding, wanted, _) =>
      && (h in seeding ==> PhaseOf(w, n) == Holds)
      && (Seeds(w.tracker, n, h) ==> h in seeding)
      && (Wants(w.tracker, n, h) && h !in seeding ==> h in wanted)
      && (h in wanted ==> Wants(w.tracker, n, h))
  }

  /** A node that did not want h yet polls while nobody seeds it, and sorts before a node that is
      already fetching from origin. */
  ghost predicate Displaces(h: Content, w: World, e: Event) {
    && e.Poll? && !Seeded(w.tracker, h) && !Wants(w.tracker, e.node, h)
    && exists l :: l in w.origins && Before(e.now, e.node, Since(w.tracker, l, h), l)
  }

  ghost predicate Seeded(t: Tracker, h: Content) {
    exists m :: Seeds(t, m, h)
  }

  ghost predicate IsFirst(t: Tracker, n: NodeId, h: Content) {
    Wants(t, n, h)
    && forall m :: m != n && Wants(t, m, h) ==> Before(Since(t, n, h), n, Since(t, m, h), m)
  }

  ghost predicate AtMostOne(s: set<NodeId>) {
    forall a, b :: a in s && b in s ==> a == b
  }

  ghost predicate Invariant(h: Content, w: World) {
    && Ordered(w.tracker)
    && (forall n :: Seeds(w.tracker, n, h) ==> PhaseOf(w, n) == Holds)
    && AtMostOne(w.origins)
    && (!Seeded(w.tracker, h) ==> forall n :: n in w.origins <==> IsFirst(w.tracker, n, h))
  }

  lemma SomeoneIsFirst(t: Tracker, h: Content, m: NodeId)
    requires Ordered(t) && !Seeded(t, h) && Wants(t, m, h)
    ensures exists n :: IsFirst(t, n, h)
  {
    EarliestIs(t, h, |t.order|);
    assert t.order[..|t.order|] == t.order;
    assert forall n :: Wants(t, n, h) ==> n in t.order && Candidate(t, n, h);
    assert IsFirst(t, Earliest(t, h, |t.order|).value, h);
  }

  /** A poll ends in one of three ways: some seeder delivers, or the node is first and goes to
      origin, or it waits. */
  lemma PollOutcome(h: Content, t: Tracker, e: Event)
    requires Ordered(t) && e.Poll? && h !in e.seeding && !Seeds(t, e.node, h)
    ensures var u := Upsert(t, PollOf(h, e), e.now);
            && (Seeded(u, h) <==> Seeded(t, h))
            && (Decision(h, t, e) == P.Got <==> Seeded(t, h))
            && (Decision(h, t, e) == P.Origin <==> !Seeded(t, h) && IsFirst(u, e.node, h))
  {
    var a := PollOf(h, e);
    var u := Upsert(t, a, e.now);
    UpsertOrdered(t, a, e.now);
    AnswerForOneHash(u, a, h);
    assert forall m :: Seeds(u, m, h) <==> Seeds(t, m, h);
    var others := Others(u, a, |u.order|);
    OthersAre(u, a, |u.order|);
    assert P.HasSeeders(Answer(u, a), e.node) <==> AnySeeder(others);
    if !Seeded(u, h) {
      assert forall m :: Candidate(u, m, h) <==> Wants(u, m, h);
      assert Wants(u, e.node, h);
    }
  }

  lemma WantsAfterPoll(h: Content, t: Tracker, e: Event, m: NodeId)
    requires Ordered(t) && e.Poll?
    ensures var u := Upsert(t, PollOf(h, e), e.now);
            && (Wants(u, m, h) <==> m == e.node || Wants(t, m, h))
            && Since(u, m, h) == if m == e.node && !Wants(t, m, h) then e.now else Since(t, m, h)
  {
  }

  /** A newcomer is first only when nobody wanted h before it. */
  lemma NewcomerKeepsFirst(h: Content, w: World, e: Event)
    requires Invariant(h, w) && Allowed(h, w, e) && e.Poll? && !Displaces(h, w, e)
    requires !Seeded(w.tracker, h) && !Wants(w.tracker, e.node, h)
    ensures var u := Upsert(w.tracker, PollOf(h, e), e.now);
            && (IsFirst(u, e.node, h) <==> w.origins == {})
            && (forall m :: m != e.node ==> (IsFirst(u, m, h) <==> IsFirst(w.tracker, m, h)))
  {
    var u := Upsert(w.tracker, PollOf(h, e), e.now);
    forall m {
      WantsAfterPoll(h, w.tracker, e, m);
    }
    if w.origins == {} {
      forall m | Wants(w.tracker, m, h)
        ensures false
      {
        SomeoneIsFirst(w.tracker, h, m);
      }
    } else {
      var l :| l in w.origins;
      assert IsFirst(w.tracker, l, h);
      assert Before(Since(u, l, h), l, Since(u, e.node, h), e.node);
    }
  }

  lemma VeteranKeepsFirst(h: Content, t: Tracker, e: Event, m: NodeId)
    requires Ordered(t) && e.Poll? && Wants(t, e.node, h)
    ensures IsFirst(Upsert(t, PollOf(h, e), e.now), m, h) <==> IsFirst(t, m, h)
  {
    forall k {
      WantsAfterPoll(h, t, e, k);
    }
  }

  lemma PollKeepsInvariant(h: Content, w: World, e: Event)
    requires Invariant(h, w) && Allowed(h, w, e) && e.Poll? && !Displaces(h, w, e)
    ensures Invariant(h, Next(h, w, e))
  {
    UpsertOrdered(w.tracker, PollOf(h, e), e.now);
    PollOutcome(h, w.tracker, e);
    assert forall m :: Seeds(Next(h, w, e).tracker, m, h) ==> Seeds(w.tracker, m, h) && m != e.node;
    if !Seeded(w.tracker, h) {
      if Wants(w.tracker, e.node, h) {
        forall m {
          VeteranKeepsFirst(h, w.tracker, e, m);
        }
      } else {
        NewcomerKeepsFirst(h, w, e);
      }
    }
  }

  lemma DisplacementMakesTwo(h: Content, w: World, e: Event)
    requires Invariant(h, w) && Allowed(h, w, e) && Displaces(h, w, e)
    ensures !AtMostOne(Next(h, w, e).origins)
  {
    var l :| l in w.origins && Before(e.now, e.node, Since(w.tracker, l, h), l);
    assert IsFirst(w.tracker, l, h);
    forall m {
      WantsAfterPoll(h, w.tracker, e, m);
    }
    PollOutcome(h, w.tracker, e);
    assert IsFirst(Next(h, w, e).tracker, e.node, h);
    assert l in Next(h, w, e).origins && e.node in Next(h, w, e).origins;
  }

  lemma TellKeepsFirst(h: Content, w: World, e: Event, m: NodeId)
    requires Invariant(h, w) && Allowed(h, w, e) && e.Tell? && h !in e.seeding
    ensures IsFirst(Next(h, w, e).tracker, m, h) <==> IsFirst(w.tracker, m, h)
  {
    var v := Next(h, w, e);
    assert forall k :: Wants(v.tracker, k, h) <==> Wants(w.tracker, k, h);
    assert forall k :: Wants(w.tracker, k, h) ==> Since(v.tracker, k, h) == Since(w.tracker, k, h);
  }

  lemma TellKeepsInvariant(h: Content, w: World, e: Event)
    requires Invariant(h, w) && Allowed(h, w, e) && e.Tell?
    ensures Invariant(h, Next(h, w, e))
  {
    var v := Next(h, w, e);
    UpsertOrdered(w.tracker, Announce(e.node, e.seeding, e.wanted, true), e.now);
    assert forall m :: Seeds(v.tracker, m, h) <==> if m == e.node then h in e.seeding else Seeds(w.tracker, m, h);
    assert forall m :: Seeds(w.tracker, m, h) ==> Seeds(v.tracker, m, h);
    if !Seeded(v.tracker, h) {
      assert !Seeds(v.tracker, e.node, h);
      forall m {
        TellKeepsFirst(h, w, e, m);
      }
    }
  }

  lemma StepKeepsInvariant(h: Content, w: World, e: Event)
    requires Invariant(h, w) && Allowed(h, w, e) && !Displaces(h, w, e)
    ensures Invariant(h, Next(h, w, e))
  {
    match e {
      case Poll(_, _, _) => PollKeepsInvariant(h, w, e);
      case FinishOrigin(_) =>
      case Tell(_, _, _, _) => TellKeepsInvariant(h, w, e);
    }
  }

  // ---- whole runs ------------------------------------------------------------------------------

  ghost function After(h: Content, events: seq<Event>): World {
    if events == [] then Start else Next(h, After(h, events[..|events| - 1]), events[|events| - 1])
  }

  ghost predicate AllowedRun(h: Content, events: seq<Event>) {
    events != [] ==>
      var shorter := events[..|events| - 1];
      AllowedRun(h, shorter) && Allowed(h, After(h, shorter), events[|events| - 1])
  }

  ghost predicate Undisplaced(h: Content, events: seq<Event>) {
    events != [] ==>
      var shorter := events[..|events| - 1];
      Undisplaced(h, shorter) && !Displaces(h, After(h, shorter), events[|events| - 1])
  }

  lemma {:induction false} UndisplacedRunKeepsInvariant(h: Content, events: seq<Event>)
    requires AllowedRun(h, events) && Undisplaced(h, events)
    ensures Invariant(h, After(h, events))
  {
    if events != [] {
      UndisplacedRunKeepsInvariant(h, events[..|events| - 1]);
      StepKeepsInvariant(h, After(h, events[..|events| - 1]), events[|events| - 1]);
    }
  }

  /** The promise of one origin download per wave holds in exactly the runs in which no newcomer
      sorts before a node that is already at origin. */
  lemma {:induction false} OneOriginIffUndisplaced(h: Content, events: seq<Event>)
    requires AllowedRun(h, events)
    ensures AtMostOne(After(h, events).origins) <==> Undisplaced(h, events)
  {
    if events != [] {
      var shorter, last := events[..|events| - 1], events[|events| - 1];
      var w := After(h, shorter);
      OneOriginIffUndisplaced(h, shorter);
      assert w.origins <= After(h, events).origins;
      if Undisplaced(h, shorter) {
        UndisplacedRunKeepsInvariant(h, shorter);
        if Displaces(h, w, last) {
          DisplacementMakesTwo(h, w, last);
        } else {
          StepKeepsInvariant(h, w, last);
        }
      }
    }
  }

  /** While nobody seeds h, somebody is at origin as soon as anybody wants it. */
  lemma SomeoneFetches(h: Content, events: seq<Event>, n: NodeId)
    requires AllowedRun(h, events) && Undisplaced(h, events)
    requires !Seeded(After(h, events).tracker, h) && Wants(After(h, events).tracker, n, h)
    ensures exists l :: After(h, events).origins == {l}
  {
    UndisplacedRunKeepsInvariant(h, events);
    FirstIsAtOrigin(h, After(h, events), n);
  }

  lemma FirstIsAtOrigin(h: Content, w: World, n: NodeId)
    requires Invariant(h, w) && !Seeded(w.tracker, h) && Wants(w.tracker, n, h)
    ensures exists l :: w.origins == {l}
  {
    SomeoneIsFirst(w.tracker, h, n);
    var l: NodeId :| IsFirst(w.tracker, l, h);
    assert l in w.origins;
    assert w.origins == {l};
  }

  // ---- a clock that never repeats ---------------------------------------------------------------

  function TimeOf(e: Event): Option<real> {
    match e
    case Poll(_, _, now) => Some(now)
    case Tell(_, _, _, now) => Some(now)
    case FinishOrigin(_) => None
  }

  ghost predicate ClockAdvances(events: seq<Event>) {
    forall i, j :: 0 <= i < j < |events| && TimeOf(events[i]).Some? && TimeOf(events[j]).Some? ==>
      TimeOf(events[i]).value < TimeOf(events[j]).value
  }

  lemma WantingBegins(h: Content, w: World, e: Event, n: NodeId)
    requires Ordered(w.tracker) && Allowed(h, w, e) && Wants(Next(h, w, e).tracker, n, h)
    ensures Since(Next(h, w, e).tracker, n, h)
         == if Wants(w.tracker, n, h) || !e.Poll? then Since(w.tracker, n, h) else e.now
    ensures Wants(w.tracker, n, h) || e.Poll?
  {
  }

  lemma {:induction false} RunKeepsOrder(h: Content, events: seq<Event>)
    ensures Ordered(After(h, events).tracker)
  {
    if events != [] {
      var w, e := After(h, events[..|events| - 1]), events[|events| - 1];
      RunKeepsOrder(h, events[..|events| - 1]);
      match e {
        case Poll(_, _, now) => UpsertOrdered(w.tracker, PollOf(h, e), now);
        case Tell(n, seeding, wanted, now) =>
          UpsertOrdered(w.tracker, Announce(n, seeding, wanted, true), now);
        case FinishOrigin(_) =>
      }
    }
  }

  lemma {:induction false} WantsBegin(h: Content, events: seq<Event>, bound: real, n: NodeId)
    requires AllowedRun(h, events)
    requires forall e :: e in events && TimeOf(e).Some? ==> TimeOf(e).value < bound
    requires Wants(After(h, events).tracker, n, h)
    ensures Since(After(h, events).tracker, n, h) < bound
    decreases |events|
  {
    if events != [] {
      var shorter, last := events[..|events| - 1], events[|events| - 1];
      assert last in events && forall e :: e in shorter ==> e in events;
      RunKeepsOrder(h, shorter);
      WantingBegins(h, After(h, shorter), last, n);
      if Wants(After(h, shorter).tracker, n, h) {
        WantsBegin(h, shorter, bound, n);
      }
    }
  }

  lemma {:induction false} UndisplacedByTime(h: Content, events: seq<Event>)
    requires AllowedRun(h, events) && ClockAdvances(events)
    ensures Undisplaced(h, events)
  {
    if events != [] {
      var n := |events| - 1;
      var before, e := events[..n], events[n];
      assert forall i :: 0 <= i < n ==> before[i] == events[i];
      UndisplacedByTime(h, before);
      var w := After(h, before);
      if Displaces(h, w, e) {
        UndisplacedRunKeepsInvariant(h, before);
        var l :| l in w.origins && Before(e.now, e.node, Since(w.tracker, l, h), l);
        assert IsFirst(w.tracker, l, h);
        assert forall x :: x in before && TimeOf(x).Some? ==> TimeOf(x).value < e.now;
        WantsBegin(h, before, e.now, l);
        assert false;
      }
    }
  }

  /** With a tracker clock that strictly advances, at most one node per wave goes to origin. */
  lemma AtMostOneOrigin(h: Content, events: seq<Event>)
    requires AllowedRun(h, events) && ClockAdvances(events)
    ensures AtMostOne(After(h, events).origins)
  {
    UndisplacedByTime(h, events);
    OneOriginIffUndisplaced(h, events);
  }

  lemma FirstPollLeads(h: Content, n: NodeId, now: real)
    ensures var w := Next(h, Start, Poll(n, {}, now));
            Invariant(h, w) && w.origins == {n} && Since(w.tracker, n, h) == now
            && w.tracker.order == [n] && !Seeded(w.tracker, h)
  {
    var e := Poll(n, {}, now);
    StepKeepsInvariant(h, Start, e);
    PollOutcome(h, Start.tracker, e);
    assert IsFirst(Next(h, Start, e).tracker, n, h);
  }

  lemma RunOfTwo(h: Content, a: Event, b: Event)
    ensures After(h, [a, b]) == Next(h, Next(h, Start, a), b)
    ensures AllowedRun(h, [a, b]) <==> Allowed(h, Start, a) && Allowed(h, Next(h, Start, a), b)
  {
    assert [a, b][..1] == [a] && [a][..0] == [];
    assert After(h, [a][..0]) == Start && AllowedRun(h, [a][..0]);
    assert After(h, [a]) == Next(h, Start, a) && (AllowedRun(h, [a]) <==> Allowed(h, Start, a));
  }

  /** A tie on the clock is enough for a second origin download: node 2 polls first, node 1 polls at
      the same reading, sorts before it and goes to origin too. */
  lemma TieMakesTwoOrigins(h: Content, now: real)
    ensures var events := [Poll(2, {}, now), Poll(1, {}, now)];
            AllowedRun(h, events) && After(h, events).origins == {1, 2}
  {
    var first, second := Poll(2, {}, now), Poll(1, {}, now);
    var w := Next(h, Start, first);
    FirstPollLeads(h, 2, now);
    RunOfTwo(h, first, second);
    PollOutcome(h, w.tracker, second);
    assert IsFirst(Next(h, w, second).tracker, 1, h);
  }
}
