/** The polling loop of one node that wants a file: seeder, origin, or wait. */
module PeerFetch {
  import opened Bytes
  import opened Receipts
  import R = Rendezvous

  const WAIT_RATE_BPS := 2097152.0
  const WAIT_MAX_S := 1800.0
  const WAIT_FLOOR_S := 60.0
  const WAIT_POLL_S := 15.0
  const MAX_ANNOUNCES := 122

  datatype Decision = Got | Origin | Wait

  predicate HasSeeders(r: R.Reply, self: NodeId)
    requires r.Peers?
  {
    exists p :: p in r.others && p.node != self && p.role != R.Leecher
  }

  /** What one answer of the tracker makes the node do. `fetched`: some listed seeder delivered. */
  function Decide(r: R.Reply, self: NodeId, fetched: bool, expired: bool): Decision
    requires r.Peers?
  {
    if HasSeeders(r, self) && fetched then Got
    else if r.originLeader == None || r.originLeader == Some(self) || expired then Origin
    else Wait
  }

  /** Everything outside the node: the k-th answer (None or a refusal where the call fails), whether
      the k-th round's seeders delivered, and the clock at the k-th deadline check. */
  datatype Surroundings = Surroundings(answer: nat -> R.Reply, fetched: nat -> bool, clock: nat -> real)

  function Allowance(sizeBytes: nat): (s: real)
    ensures WAIT_FLOOR_S <= s <= WAIT_MAX_S
  {
    var atRate := sizeBytes as real / WAIT_RATE_BPS;
    var patient := if WAIT_FLOOR_S > atRate then WAIT_FLOOR_S else atRate;
    if WAIT_MAX_S < patient then WAIT_MAX_S else patient
  }

  function Round(env: Surroundings, self: NodeId, deadline: real, k: nat): Decision {
    if !env.answer(k).Peers? then Origin
    else Decide(env.answer(k), self, env.fetched(k), env.clock(k) > deadline)
  }

  predicate SleepsLongEnough(env: Surroundings, k: nat) {
    env.clock(k + 1) >= env.clock(k) + WAIT_POLL_S
  }

  /** fetch returns with the first round that is not Wait; whatever the tracker says and however
      large the file, that round is among the first 122. */
  method Fetch(env: Surroundings, self: NodeId, sizeBytes: nat, start: real)
    returns (got: bool, announces: nat)
    requires env.clock(0) >= start && forall k: nat :: SleepsLongEnough(env, k)
    ensures 1 <= announces <= MAX_ANNOUNCES
    ensures announces > 1 ==> (announces - 2) as real * WAIT_POLL_S <= Allowance(sizeBytes)
    ensures var deadline := start + Allowance(sizeBytes);
            && (forall k :: 0 <= k < announces - 1 ==> Round(env, self, deadline, k) == Wait)
            && Round(env, self, deadline, announces - 1) == if got then Got else Origin
  {
    var deadline := start + Allowance(sizeBytes);
    announces := 0;
    while true
      invariant env.clock(announces) >= start + announces as real * WAIT_POLL_S
      invariant announces > 0 ==> (announces - 1) as real * WAIT_POLL_S <= Allowance(sizeBytes)
      invariant forall k :: 0 <= k < announces ==> Round(env, self, deadline, k) == Wait
      decreases MAX_ANNOUNCES - announces
    {
      assert SleepsLongEnough(env, announces);
      var r := env.answer(announces);
      var expired := env.clock(announces) > deadline;
      announces := announces + 1;
      if !r.Peers? {
        return false, announces;
      }
      if HasSeeders(r, self) && env.fetched(announces - 1) {
        return true, announces;
      }
      if r.originLeader == None || r.originLeader == Some(self) || expired {
        return false, announces;
      }
    }
  }

  /** The file is there exactly when a listed peer, other than this node and no leecher, delivered. Failing
      that, the node waits exactly for another leader, until its deadline. */
  lemma DecisionIs(r: R.Reply, self: NodeId, fetched: bool, expired: bool)
    requires r.Peers?
    ensures var got := fetched && exists i :: 0 <= i < |r.others|
                                    && r.others[i].node != self && r.others[i].role != R.Leecher;
            && (Decide(r, self, fetched, expired) == Got <==> got)
            && (Decide(r, self, fetched, expired) == Wait <==>
                  !got && !expired && r.originLeader.Some? && r.originLeader.value != self)
  {
    if HasSeeders(r, self) {
      var p :| p in r.others && p.node != self && p.role != R.Leecher;
      var i :| 0 <= i < |r.others| && r.others[i] == p;
    }
    if i :| 0 <= i < |r.others| && r.others[i].node != self && r.others[i].role != R.Leecher {
      assert r.others[i] in r.others;
    }
  }

  /** A minute for files of up to 120 MiB, half an hour from 3600 MiB on, between them a second for each
      2 MiB. */
  lemma AllowanceIs(sizeBytes: nat)
    ensures sizeBytes <= 125_829_120 ==> Allowance(sizeBytes) == 60.0
    ensures sizeBytes >= 3_774_873_600 ==> Allowance(sizeBytes) == 1800.0
    ensures 125_829_120 <= sizeBytes <= 3_774_873_600 ==> Allowance(sizeBytes) * 2_097_152.0 == sizeBytes as real
  {
  }
}
