/** When `plan` raises, and when it raises although the request could be served: each strategy looks at
    one choice of nodes only. */
module Feasibility {
  import opened Receipts
  import opened Topology
  import opened Scheduler
  import opened SchedulerSafety

  // ---- the choices that are looked at ------------------------------------------------------------

  function PodNodes(req: Request): seq<Node> {
    Keep(Replicas(req), n => Can(n, "tensor"))
  }

  predicate LanPair(links: Links, nodes: seq<Node>, i: int, j: int)
    requires 0 <= i < |nodes| && 0 <= j < |nodes|
  {
    IsLanClass(LinkBetween(links, nodes[i].id, nodes[j].id))
  }

  predicate SinglesLookedAt(req: Request) {
    Executable(req, Single) && Replicas(req) != []
  }

  predicate SplitLookedAt(req: Request) {
    Executable(req, Pipeline) && TopTwoHold(Splitters(req), Needed(req))
  }

  /** The first two replicas that can take part in a pod are near each other. */
  predicate PodLookedAt(req: Request) {
    Executable(req, Tensor) && |PodNodes(req)| >= 2 && LanPair(req.links, PodNodes(req), 0, 1)
  }

  /** The fastest replica has a draft near it. */
  predicate DraftLookedAt(c: Cost, req: Request) {
    Executable(req, Speculative) && Replicas(req) != [] && Drafts(c, req, Strongest(c, Replicas(req))) != []
  }

  /** A pod is offered exactly when the first two that can take part make one. */
  lemma PodOfferedIff(c: Cost, req: Request)
    ensures TensorCandidates(c, req) != [] <==> PodLookedAt(req)
  {
    var capable := PodNodes(req);
    if |capable| >= 2 {
      assert Pod(req, 2) == capable[..2];
      assert MutuallyLanClass(req.links, Pod(req, 2)) <==> LanPair(req.links, capable, 0, 1);
    }
    if PodWorks(req, 3) {
      assert Pod(req, 3)[0] == capable[0] && Pod(req, 3)[1] == capable[1];
    }
  }

  /** Exactly when plan raises, for every request: none of the four choices works out. */
  lemma PlanRaisesIff(c: Cost, req: Request)
    ensures Candidates(c, req) == [] <==>
              !SinglesLookedAt(req) && !SplitLookedAt(req) && !PodLookedAt(req) && !DraftLookedAt(c, req)
  {
    PodOfferedIff(c, req);
    if Executable(req, Pipeline) {
      SplitOfferedIff(c, req);
    }
  }

  // ---- what could be done ------------------------------------------------------------------------

  ghost predicate SomePod(req: Request) {
    exists i, j :: 0 <= i < j < |PodNodes(req)| && LanPair(req.links, PodNodes(req), i, j)
  }

  ghost predicate SomeDraft(c: Cost, req: Request) {
    exists n :: n in Replicas(req) && Drafts(c, req, n) != []
  }

  /** Some choice of nodes serves the request: a replica, two splitters that hold the model, a pod, or a
      replica with a draft near it. */
  ghost predicate Feasible(c: Cost, req: Request) {
    || SinglesLookedAt(req)
    || (Executable(req, Pipeline) && SomePairHolds(Splitters(req), Needed(req)))
    || (Executable(req, Tensor) && SomePod(req))
    || (Executable(req, Speculative) && SomeDraft(c, req))
  }

  /** A larger pod holds one of two. */
  lemma PodsHoldPairs(links: Links, capable: seq<Node>, pod: seq<int>)
    requires |pod| >= 2 && forall k :: 0 <= k < |pod| ==> 0 <= pod[k] < |capable|
    requires forall k, l :: 0 <= k < l < |pod| ==> pod[k] < pod[l] && LanPair(links, capable, pod[k], pod[l])
    ensures exists i, j :: 0 <= i < j < |capable| && LanPair(links, capable, i, j)
  {
    assert LanPair(links, capable, pod[0], pod[1]);
  }

  lemma PlannedIsFeasible(c: Cost, req: Request)
    requires Candidates(c, req) != []
    ensures Feasible(c, req)
  {
    PlanRaisesIff(c, req);
    if SplitLookedAt(req) {
      var nodes := Splitters(req);
      var a, b := Largest(nodes, FreeVram), SecondIndex(nodes);
      assert Joint(nodes, if a < b then a else b, if a < b then b else a)
          == UsableBytes(TopTwo(nodes)[0]) + UsableBytes(TopTwo(nodes)[1]);
    }
    if PodLookedAt(req) {
      assert LanPair(req.links, PodNodes(req), 0, 1);
    }
  }

  /** The choices that some strategy passes over. */
  ghost predicate SplitPassedOver(req: Request) {
    && Executable(req, Pipeline)
    && SomePairHolds(Splitters(req), Needed(req)) && !TopTwoHold(Splitters(req), Needed(req))
  }

  ghost predicate PodPassedOver(req: Request) {
    Executable(req, Tensor) && SomePod(req) && !LanPair(req.links, PodNodes(req), 0, 1)
  }

  ghost predicate DraftPassedOver(c: Cost, req: Request) {
    Executable(req, Speculative) && SomeDraft(c, req) && Drafts(c, req, Strongest(c, Replicas(req))) == []
  }

  /** Exactly when plan raises on a request that could be served: one of the strategies passes over a
      choice that would do, and no choice that is looked at does. */
  lemma PlanMissesIff(c: Cost, req: Request)
    ensures Feasible(c, req) && Candidates(c, req) == [] <==>
              && !SinglesLookedAt(req) && !SplitLookedAt(req) && !PodLookedAt(req) && !DraftLookedAt(c, req)
              && (SplitPassedOver(req) || PodPassedOver(req) || DraftPassedOver(c, req))
  {
    PlanRaisesIff(c, req);
  }

  /** For a caller that can execute single nodes only the split can be passed over: pods and drafts need
      a replica, and any replica is a plan. */
  lemma SingleCallersMissOnlySplits(c: Cost, req: Request)
    requires Executable(req, Single)
    ensures Candidates(c, req) == [] <==> Replicas(req) == [] && !SplitLookedAt(req)
    ensures Feasible(c, req) && Candidates(c, req) == [] <==> Replicas(req) == [] && SplitPassedOver(req)
  {
    PlanMissesIff(c, req);
    PlanRaisesIff(c, req);
  }

  /** And a caller of single nodes alone never sees plan raise on a request that could be served. */
  lemma SingleOnlyNeverMissed(c: Cost, req: Request)
    requires req.executable == {"single"}
    ensures Feasible(c, req) <==> Candidates(c, req) != []
  {
    SingleNames(req);
    SingleOnly(c, req);
    SingleExcludes(req);
    SingleCallersMissOnlySplits(c, req);
    if Candidates(c, req) != [] {
      PlannedIsFeasible(c, req);
    }
  }

  lemma SingleExcludes(req: Request)
    requires req.executable == {"single"}
    ensures !Executable(req, Pipeline)
  {
    assert "pipeline"[0] != "single"[0];
  }

  // ---- requests that are missed ------------------------------------------------------------------

  /** A node of some VRAM that runs the backend and advertises one strategy. */
  function Peer(id: NodeId, strategy: string, freeVram: int, ramFree: int, decode: Rate): Node {
    Node(id, {"llamacpp"}, [strategy], freeVram, freeVram, ramFree, decode, 0.0)
  }

  function Ask(nodes: seq<Node>, links: Links, executable: string): Request {
    Request([[100]], ["llamacpp"], nodes, links, 0, 1, 512, map[], {executable})
  }

  lemma AskNeeds(nodes: seq<Node>, links: Links, executable: string)
    ensures Needed(Ask(nodes, links, executable)) == 100
  {
    var req := Ask(nodes, links, executable);
    assert req.quantizations[0] == [100] && [100][1..] == [];
    assert QuantBytes(req) == 100;
    assert KvAllowance(100, 1) == 0;
  }

  lemma PeersRun(nodes: seq<Node>, links: Links, executable: string)
    requires forall n :: n in nodes ==> "llamacpp" in n.backends
    ensures Compatible(Ask(nodes, links, executable)) == nodes
  {
    var req := Ask(nodes, links, executable);
    assert req.backends[0] == "llamacpp";
    assert forall n :: n in nodes ==> RunsModel(req, n);
    KeepAll(nodes, n => RunsModel(req, n));
  }

  lemma PeersFit(nodes: seq<Node>, links: Links, executable: string)
    requires forall n :: n in nodes ==> "llamacpp" in n.backends && UsableBytes(n) >= 100
    ensures Replicas(Ask(nodes, links, executable)) == nodes
  {
    var req := Ask(nodes, links, executable);
    PeersRun(nodes, links, executable);
    AskNeeds(nodes, links, executable);
    KeepAll(nodes, n => Fits(req, n));
  }

  /** Two nodes of little VRAM rank before two that have RAM only, and these two could hold the model. */
  lemma SplitIsMissed(c: Cost)
    ensures var req := Ask([Peer(1, "pipeline", 10, 0, 0.0), Peer(2, "pipeline", 10, 0, 0.0),
                            Peer(3, "pipeline", 0, 60, 0.0), Peer(4, "pipeline", 0, 60, 0.0)], map[], "pipeline");
            Feasible(c, req) && Candidates(c, req) == []
  {
    var nodes := [Peer(1, "pipeline", 10, 0, 0.0), Peer(2, "pipeline", 10, 0, 0.0),
                  Peer(3, "pipeline", 0, 60, 0.0), Peer(4, "pipeline", 0, 60, 0.0)];
    var req := Ask(nodes, map[], "pipeline");
    AskNeeds(nodes, map[], "pipeline");
    PeersRun(nodes, map[], "pipeline");
    assert req.backends[0] == "llamacpp";
    SplitMissed(c, req);
  }

  function Lan(): Link {
    LinkMetrics(1.0, 1000.0, Direct, 1.0)
  }

  /** The first two nodes are far apart, and the second and third, which are near, are not asked. */
  lemma PodIsMissed(c: Cost)
    ensures var req := Ask([Peer(1, "tensor", 100, 0, 0.0), Peer(2, "tensor", 100, 0, 0.0),
                            Peer(3, "tensor", 100, 0, 0.0)], map[2 := With(map[], 3, Lan())], "tensor");
            Feasible(c, req) && Candidates(c, req) == []
  {
    var nodes := [Peer(1, "tensor", 100, 0, 0.0), Peer(2, "tensor", 100, 0, 0.0), Peer(3, "tensor", 100, 0, 0.0)];
    var links: Links := map[2 := With(map[], 3, Lan())];
    var req := Ask(nodes, links, "tensor");
    PeersFit(nodes, links, "tensor");
    KeepAll(nodes, n => Can(n, "tensor"));
    assert PodNodes(req) == nodes;
    assert LanPair(links, nodes, 1, 2) && !LanPair(links, nodes, 0, 1);
    NamesDiffer("tensor", req);
    PlanMissesIff(c, req);
  }

  lemma FirstIsStrongest(c: Cost, nodes: seq<Node>)
    requires nodes != [] && forall k :: 0 < k < |nodes| ==> DecodeTps(c, nodes[k]) < DecodeTps(c, nodes[0])
    ensures Strongest(c, nodes) == nodes[0]
  {
    var rate := (n: Node) => DecodeTps(c, n);
    assert rate(nodes[0]) <= rate(nodes[Largest(nodes, rate)]);
  }

  lemma NoDrafts(c: Cost, req: Request, strong: Node)
    requires forall n :: n in Compatible(req) && (Can(n, "speculative") || Can(n, "draft")) ==>
               LinkBetween(req.links, strong.id, n.id).rttMs > c.speculativeMaxRtt
    ensures Drafts(c, req, strong) == []
  {
    if Drafts(c, req, strong) != [] {
      DraftMembers(c, req, strong, Drafts(c, req, strong)[0]);
    }
  }

  lemma DraftPassed(c: Cost, req: Request, strong: Node, other: Node, draft: Node)
    requires Replicas(req) != [] && Strongest(c, Replicas(req)) == strong && other in Replicas(req)
    requires Drafts(c, req, strong) == [] && draft in Drafts(c, req, other)
    requires req.executable == {"speculative"}
    ensures Feasible(c, req) && Candidates(c, req) == []
  {
    NamesDiffer("speculative", req);
    PlanMissesIff(c, req);
  }

  lemma DraftOfSecond(c: Cost, nodes: seq<Node>, links: Links)
    requires 1.0 <= c.speculativeMaxRtt < 120.0
    requires |nodes| == 3 && nodes[0].strategies == nodes[1].strategies == ["replica"]
    requires nodes[2].strategies == ["draft"] && nodes[0].id == 1 && nodes[1].id == 2 && nodes[2].id == 3
    requires forall n :: n in nodes ==> "llamacpp" in n.backends && UsableBytes(n) >= 100
    requires DecodeTps(c, nodes[1]) < DecodeTps(c, nodes[0]) && DecodeTps(c, nodes[2]) < DecodeTps(c, nodes[0])
    requires LinkBetween(links, 1, 3) == Unmeasured() && LinkBetween(links, 2, 3) == Lan()
    ensures var req := Ask(nodes, links, "speculative"); Feasible(c, req) && Candidates(c, req) == []
  {
    var req := Ask(nodes, links, "speculative");
    PeersFit(nodes, links, "speculative");
    PeersRun(nodes, links, "speculative");
    FirstIsStrongest(c, nodes);
    ThreePeers(nodes);
    NoDrafts(c, req, nodes[0]);
    DraftMembers(c, req, nodes[1], nodes[2]);
    DraftPassed(c, req, nodes[0], nodes[1], nodes[2]);
  }

  /** The fastest replica has no draft near it, and the other one, which has, is not asked. */
  lemma DraftIsMissed(c: Cost)
    requires 1.0 <= c.speculativeMaxRtt < 120.0
    ensures var req := Ask([Peer(1, "replica", 100, 0, 50.0), Peer(2, "replica", 100, 0, 40.0),
                            Peer(3, "draft", 100, 0, 10.0)], map[2 := With(map[], 3, Lan())], "speculative");
            Feasible(c, req) && Candidates(c, req) == []
  {
    var nodes := [Peer(1, "replica", 100, 0, 50.0), Peer(2, "replica", 100, 0, 40.0), Peer(3, "draft", 100, 0, 10.0)];
    DraftOfSecond(c, nodes, map[2 := With(map[], 3, Lan())]);
  }

  lemma ThreePeers(nodes: seq<Node>)
    requires |nodes| == 3 && nodes[0].strategies == nodes[1].strategies == ["replica"]
    requires nodes[2].strategies == ["draft"]
    ensures forall n :: n in nodes && (Can(n, "speculative") || Can(n, "draft")) ==> n == nodes[2]
    ensures Can(nodes[2], "draft")
  {
    assert "replica"[0] == 'r' && "speculative"[0] == 's' && "draft"[0] == 'd';
  }

  lemma DraftMembers(c: Cost, req: Request, strong: Node, n: Node)
    ensures n in Drafts(c, req, strong) <==>
              && n in Compatible(req) && n.id != strong.id && (Can(n, "speculative") || Can(n, "draft"))
              && LinkBetween(req.links, strong.id, n.id).rttMs <= c.speculativeMaxRtt
  {
    KeepMembers(Compatible(req), (n: Node) => n.id != strong.id && (Can(n, "speculative") || Can(n, "draft"))
                               && LinkBetween(req.links, strong.id, n.id).rttMs <= c.speculativeMaxRtt, n);
  }

  lemma NamesDiffer(name: string, req: Request)
    requires req.executable == {name} && (name == "tensor" || name == "speculative")
    ensures !Executable(req, Single) && !Executable(req, Pipeline)
    ensures Executable(req, Tensor) <==> name == "tensor"
    ensures Executable(req, Speculative) <==> name == "speculative"
  {
    assert "single"[1] == 'i' && "pipeline"[1] == 'i' && "tensor"[1] == 'e' && "speculative"[1] == 'p';
  }
}
