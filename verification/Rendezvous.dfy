/** The tracker: who seeds what, who wants what since when, and who fetches from origin. */
module Rendezvous {
  import opened Bytes
  import opened Receipts

  /** A manifest hash, by its rank in string order. */
  type Content = nat

  datatype Peer = Peer(
    seeding: set<Content>, lastAnnounce: real, wanted: set<Content>, wantedSince: map<Content, real>)

  /** `signed`: the announce carries a signature that verifies under the key it names. */
  datatype Announce = Announce(node: NodeId, seeding: set<Content>, wanted: set<Content>, signed: bool)

  datatype Role = Seeder | Leecher

  datatype Listed = Listed(node: NodeId, role: Role)

  datatype Reply = BadSignature | Peers(others: seq<Listed>, originLeader: Option<NodeId>)

  /** The peer dictionary: `order` is its insertion order. */
  datatype Tracker = Tracker(order: seq<NodeId>, peers: map<NodeId, Peer>)

  ghost predicate Ordered(t: Tracker) {
    && (forall n :: n in t.order <==> n in t.peers)
    && (forall i, j :: 0 <= i < j < |t.order| ==> t.order[i] != t.order[j])
    && (forall n :: n in t.peers ==> t.peers[n].wantedSince.Keys == t.peers[n].wanted)
  }

  predicate Wants(t: Tracker, n: NodeId, h: Content) {
    n in t.peers && h in t.peers[n].wanted
  }

  predicate Seeds(t: Tracker, n: NodeId, h: Content) {
    n in t.peers && h in t.peers[n].seeding
  }

  /** Since when a node has wanted h without a break. */
  function Since(t: Tracker, n: NodeId, h: Content): real {
    if n in t.peers && h in t.peers[n].wantedSince then t.peers[n].wantedSince[h] else 0.0
  }

  /** A hash that the node wanted before keeps its first time. */
  function Onsets(t: Tracker, a: Announce, now: real): map<Content, real> {
    map h | h in a.wanted ::
      if a.node in t.peers && h in t.peers[a.node].wantedSince then t.peers[a.node].wantedSince[h] else now
  }

  function Upsert(t: Tracker, a: Announce, now: real): Tracker {
    Tracker(if a.node in t.peers then t.order else t.order + [a.node],
            t.peers[a.node := Peer(a.seeding, now, a.wanted, Onsets(t, a, now))])
  }

  /** How a peer appears to the announcer: relative to what it wants, or to what it seeds when it
      wants nothing. */
  function RoleFor(p: Peer, a: Announce): Option<Role> {
    if a.wanted != {} && p.seeding * a.wanted != {} then Some(Seeder)
    else if a.wanted != {} && p.wanted * a.wanted != {} then Some(Leecher)
    else if a.wanted == {} && p.seeding * a.seeding != {} then Some(Seeder)
    else None
  }

  function Others(t: Tracker, a: Announce, n: nat): seq<Listed>
    requires n <= |t.order|
  {
    if n == 0 then []
    else
      var nid := t.order[n - 1];
      var role := if nid == a.node || nid !in t.peers then None else RoleFor(t.peers[nid], a);
      Others(t, a, n - 1) + if role.Some? then [Listed(nid, role.value)] else []
  }

  predicate Before(s: real, a: NodeId, t: real, b: NodeId) {
    s < t || (s == t && a < b)
  }

  predicate Candidate(t: Tracker, n: NodeId, h: Content) {
    Wants(t, n, h) && !Seeds(t, n, h)
  }

  /** The earliest of the first n peers that want h without seeding it. */
  function Earliest(t: Tracker, h: Content, n: nat): Option<NodeId>
    requires n <= |t.order|
  {
    if n == 0 then None
    else
      var best := Earliest(t, h, n - 1);
      var nid := t.order[n - 1];
      if !Candidate(t, nid, h) then best
      else if best.None? || Before(Since(t, nid, h), nid, Since(t, best.value, h), best.value) then Some(nid)
      else best
  }

  ghost function Smallest(s: set<Content>): (m: Content)
    requires s != {}
    ensures m in s && forall x :: x in s ==> m <= x
  {
    var x :| x in s;
    if s == {x} then x
    else
      var rest := s - {x};
      assert s == rest + {x};
      var m := Smallest(rest);
      if m < x then m else x
  }

  predicate AnySeeder(others: seq<Listed>) {
    exists p :: p in others && p.role == Seeder
  }

  ghost function Leader(t: Tracker, a: Announce): Option<NodeId> {
    if a.wanted == {} || AnySeeder(Others(t, a, |t.order|)) then None
    else Earliest(t, Smallest(a.wanted), |t.order|)
  }

  ghost function Answer(t: Tracker, a: Announce): Reply {
    Peers(Others(t, a, |t.order|), Leader(t, a))
  }

  class Rendezvous {
    var order: seq<NodeId>
    var peers: map<NodeId, Peer>

    ghost function Now(): Tracker
      reads this
    {
      Tracker(order, peers)
    }

    ghost predicate Valid()
      reads this
    {
      Ordered(Now())
    }

    constructor ()
      ensures Valid() && Now() == Tracker([], map[])
    {
      order, peers := [], map[];
    }

    method AnnouncePeer(a: Announce, now: real) returns (reply: Reply)
      requires Valid()
      modifies this
      ensures Valid()
      ensures Now() == if a.signed then Upsert(old(Now()), a, now) else old(Now())
      ensures reply == if a.signed then Answer(Now(), a) else BadSignature
    {
      if !a.signed {
        return BadSignature;
      }
      UpsertOrdered(Now(), a, now);
      var prev := if a.node in peers then peers[a.node].wantedSince else map[];
      var since := map h | h in a.wanted :: if h in prev then prev[h] else now;
      assert since == Onsets(Now(), a, now);
      if a.node !in peers {
        order := order + [a.node];
      }
      peers := peers[a.node := Peer(a.seeding, now, a.wanted, since)];
      var others := ListOthers(a);
      var leader: Option<NodeId> := None;
      if a.wanted != {} && !AnySeeder(others) {
        var h := First(a.wanted);
        leader := EarliestWanting(h);
      }
      reply := Peers(others, leader);
    }

    method ListOthers(a: Announce) returns (others: seq<Listed>)
      requires Valid()
      ensures others == Others(Now(), a, |order|)
    {
      others := [];
      for i := 0 to |order|
        invariant others == Others(Now(), a, i)
      {
        var nid := order[i];
        if nid != a.node {
          var role := RoleFor(peers[nid], a);
          others := others + if role.Some? then [Listed(nid, role.value)] else [];
        }
      }
    }

    method EarliestWanting(h: Content) returns (leader: Option<NodeId>)
      requires Valid()
      ensures leader == Earliest(Now(), h, |order|)
    {
      leader := None;
      var best := 0.0;
      for i := 0 to |order|
        invariant leader == Earliest(Now(), h, i)
        invariant leader.Some? ==> best == Since(Now(), leader.value, h)
      {
        var p := peers[order[i]];
        if h in p.wanted && h !in p.seeding {
          var since := p.wantedSince[h];
          if leader.None? || Before(since, order[i], best, leader.value) {
            leader, best := Some(order[i]), since;
          }
        }
      }
    }
  }

  /** sorted(s)[0]. */
  method First(s: set<Content>) returns (m: Content)
    requires s != {}
    ensures m == Smallest(s)
  {
    m :| m in s;
    var rest := s - {m};
    while rest != {}
      invariant m in s && rest <= s && forall x :: x in s && x !in rest ==> m <= x
      decreases rest
    {
      var x :| x in rest;
      if x < m {
        m := x;
      }
      rest := rest - {x};
    }
  }

  lemma UpsertOrdered(t: Tracker, a: Announce, now: real)
    requires Ordered(t)
    ensures Ordered(Upsert(t, a, now))
  {
    var u := Upsert(t, a, now);
    assert forall n :: n in u.order <==> n in t.order || n == a.node;
  }

  // ---- what the answer means -------------------------------------------------------------------

  lemma {:induction false} OthersAre(t: Tracker, a: Announce, n: nat)
    requires Ordered(t) && n <= |t.order|
    ensures forall p :: p in Others(t, a, n) <==>
              p.node in t.order[..n] && p.node != a.node && RoleFor(t.peers[p.node], a) == Some(p.role)
  {
    if n > 0 {
      OthersAre(t, a, n - 1);
      assert t.order[..n] == t.order[..n - 1] + [t.order[n - 1]];
    }
  }

  /** The named leader is the one candidate that started wanting h first, ties by id; nobody is
      named only when there is no candidate. */
  lemma {:induction false} EarliestIs(t: Tracker, h: Content, n: nat)
    requires n <= |t.order|
    ensures var best := Earliest(t, h, n);
            && (best.None? ==> forall m :: m in t.order[..n] ==> !Candidate(t, m, h))
            && (best.Some? ==>
                  && best.value in t.order[..n] && Candidate(t, best.value, h)
                  && forall m :: m in t.order[..n] && Candidate(t, m, h) && m != best.value ==>
                       Before(Since(t, best.value, h), best.value, Since(t, m, h), m))
  {
    if n > 0 {
      EarliestIs(t, h, n - 1);
      assert t.order[..n] == t.order[..n - 1] + [t.order[n - 1]];
    }
  }

  /** What a node that wants only h is told. */
  lemma AnswerForOneHash(t: Tracker, a: Announce, h: Content)
    requires Ordered(t) && a.node in t.peers && a.wanted == {h}
    ensures var r := Answer(t, a);
            && (AnySeeder(r.others) <==> exists m :: m != a.node && Seeds(t, m, h))
            && (AnySeeder(r.others) ==> r.originLeader.None?)
            && (!AnySeeder(r.others) && r.originLeader.Some? ==>
                  && Candidate(t, r.originLeader.value, h)
                  && forall m :: Candidate(t, m, h) && m != r.originLeader.value ==>
                       Before(Since(t, r.originLeader.value, h), r.originLeader.value, Since(t, m, h), m))
            && (!AnySeeder(r.others) && r.originLeader.None? ==> forall m :: !Candidate(t, m, h))
  {
    var n := |t.order|;
    OthersAre(t, a, n);
    EarliestIs(t, h, n);
    assert t.order[..n] == t.order;
    forall p: Peer
      ensures RoleFor(p, a) == Some(Seeder) <==> h in p.seeding
    {
      assert h in p.seeding <==> h in p.seeding * a.wanted;
      assert p.seeding * a.wanted <= {h};
    }
    forall m | m != a.node && Seeds(t, m, h)
      ensures Listed(m, Seeder) in Others(t, a, n)
    {
      assert m in t.order;
    }
    if AnySeeder(Others(t, a, n)) {
      var p :| p in Others(t, a, n) && p.role == Seeder;
      assert Seeds(t, p.node, h);
    }
    assert Smallest(a.wanted) == h;
  }

  /** Roles are relative to what the announcer wants: a seeder has something of it, a leecher wants something
      of it of which it has nothing. An announcer that wants nothing is told who has something of its own. */
  lemma RoleIs(p: Peer, a: Announce)
    ensures RoleFor(p, a) == Some(Seeder) <==>
              || (exists h :: h in a.wanted && h in p.seeding)
              || (a.wanted == {} && exists h :: h in a.seeding && h in p.seeding)
    ensures RoleFor(p, a) == Some(Leecher) <==>
              && (forall h :: h in a.wanted ==> h !in p.seeding)
              && (exists h :: h in a.wanted && h in p.wanted)
  {
    DisjointIff(p.seeding, a.wanted);
    DisjointIff(p.wanted, a.wanted);
    DisjointIff(p.seeding, a.seeding);
  }

  lemma DisjointIff(a: set<Content>, b: set<Content>)
    ensures a * b != {} <==> exists h :: h in b && h in a
  {
    if h :| h in b && h in a {
      assert h in a * b;
    }
    if a * b != {} {
      var h :| h in a * b;
    }
  }

  /** Who is listed, over the peer table. */
  lemma ListedIff(t: Tracker, a: Announce, node: NodeId, role: Role)
    requires Ordered(t)
    ensures Listed(node, role) in Answer(t, a).others <==>
              node in t.peers && node != a.node && RoleFor(t.peers[node], a) == Some(role)
  {
    OthersAre(t, a, |t.order|);
    assert t.order[..|t.order|] == t.order;
  }

  /** Another peer has some of what the announcer wants. */
  ghost predicate SomeoneHas(t: Tracker, a: Announce) {
    exists m, h :: m in t.peers && m != a.node && h in a.wanted && h in t.peers[m].seeding
  }

  /** The leader for any announce: none where nothing is wanted or somebody has some of it; else the first
      to want the smallest wanted hash of those that lack it, if there is one. */
  lemma LeaderIs(t: Tracker, a: Announce)
    requires Ordered(t)
    ensures a.wanted == {} || SomeoneHas(t, a) ==> Answer(t, a).originLeader == None
    ensures a.wanted != {} && !SomeoneHas(t, a) ==>
              Answer(t, a).originLeader == Earliest(t, Smallest(a.wanted), |t.order|)
  {
    OthersAre(t, a, |t.order|);
    assert t.order[..|t.order|] == t.order;
    var others := Others(t, a, |t.order|);
    forall m | m in t.peers
      ensures RoleFor(t.peers[m], a) == Some(Seeder) <==>
                || (exists h :: h in a.wanted && h in t.peers[m].seeding)
                || (a.wanted == {} && exists h :: h in a.seeding && h in t.peers[m].seeding)
    {
      RoleIs(t.peers[m], a);
    }
    if m, h :| m in t.peers && m != a.node && h in a.wanted && h in t.peers[m].seeding {
      assert Listed(m, Seeder) in others;
    }
  }

  /** What an announce leaves in the table: its own entry, with the first time of every hash that was wanted
      before, and every other entry as it was. */
  lemma AnnouncedIs(t: Tracker, a: Announce, now: real)
    requires Ordered(t)
    ensures var u := Upsert(t, a, now);
            && u.peers.Keys == t.peers.Keys + {a.node}
            && (forall m :: m in t.peers && m != a.node ==> u.peers[m] == t.peers[m])
            && u.peers[a.node].seeding == a.seeding && u.peers[a.node].wanted == a.wanted
            && u.peers[a.node].lastAnnounce == now
            && (forall h :: h in a.wanted ==>
                 u.peers[a.node].wantedSince[h]
                 == if a.node in t.peers && h in t.peers[a.node].wanted then t.peers[a.node].wantedSince[h] else now)
  {
  }
}
