/** The measured links between nodes, and what is assumed about links nobody has measured. */
module Topology {
  import opened Receipts

  datatype PathType = Direct | Holepunched | Relay | Loopback | Pcie

  /** A link that carries data; times in milliseconds, rates in megabits per second. */
  type Link = m: LinkMetrics | m.throughputMbps > 0.0 witness LinkMetrics(1.0, 1000.0, Direct, 1.0)

  datatype LinkMetrics = LinkMetrics(rttMs: real, throughputMbps: real, pathType: PathType, stability: real)

  function IsLanClass(m: LinkMetrics): bool {
    m.rttMs <= 5.0 && m.throughputMbps >= 500.0 && m.pathType in {Direct, Loopback, Pcie}
  }

  type Row = map<NodeId, Link>

  /** For each vertex, its links to other nodes. */
  type Links = map<NodeId, Row>

  function With(row: Row, b: NodeId, m: Link): Row {
    row[b := m]
  }

  predicate Measured(links: Links, a: NodeId, b: NodeId) {
    a in links && b in links[a]
  }

  function SameHost(): Link {
    LinkMetrics(0.05, 100000.0, Loopback, 1.0)
  }

  /** A pessimistic wide-area link. */
  function Unmeasured(): Link {
    LinkMetrics(120.0, 100.0, Relay, 0.7)
  }

  function LinkBetween(links: Links, a: NodeId, b: NodeId): Link {
    if a == b then SameHost() else if Measured(links, a, b) then links[a][b] else Unmeasured()
  }

  function Upserted(links: Links, a: NodeId): Links {
    if a in links then links else links[a := map[]]
  }

  function Put(links: Links, a: NodeId, b: NodeId, m: Link): Links
    requires a in links
  {
    links[a := With(links[a], b, m)]
  }

  lemma UpsertedSame(links: Links, a: NodeId)
    ensures forall x, y :: Measured(Upserted(links, a), x, y) == Measured(links, x, y)
    ensures forall x, y :: LinkBetween(Upserted(links, a), x, y) == LinkBetween(links, x, y)
  {
  }

  lemma PutOne(links: Links, a: NodeId, b: NodeId, m: Link)
    requires a in links
    ensures forall x, y :: Measured(Put(links, a, b, m), x, y) == (Measured(links, x, y) || (x == a && y == b))
    ensures forall x, y :: LinkBetween(Put(links, a, b, m), x, y)
                           == if x != y && x == a && y == b then m else LinkBetween(links, x, y)
  {
  }

  class TopologyGraph {
    var vertices: Links

    constructor ()
      ensures vertices == map[]
    {
      vertices := map[];
    }

    method UpsertNode(a: NodeId)
      modifies this
      ensures vertices == Upserted(old(vertices), a)
    {
      if a !in vertices {
        vertices := vertices[a := map[]];
      }
    }

    /** One measurement of a to b: it also stands for b to a until that direction is measured, and
        changes no other link. */
    method SetLink(a: NodeId, b: NodeId, m: Link)
      modifies this
      ensures vertices.Keys == old(vertices).Keys + {a, b}
      ensures forall x, y ::
                LinkBetween(vertices, x, y)
                == (if x != y && x == a && y == b then m
                    else if x != y && x == b && y == a && !Measured(old(vertices), b, a) then m
                    else LinkBetween(old(vertices), x, y))
    {
      UpsertedSame(vertices, a);
      UpsertNode(a);
      PutOne(vertices, a, b, m);
      vertices := Put(vertices, a, b, m);
      UpsertedSame(vertices, b);
      UpsertNode(b);
      PutOne(vertices, b, a, m);
      if !Measured(vertices, b, a) {
        vertices := Put(vertices, b, a, m);
      }
    }
  }
}
