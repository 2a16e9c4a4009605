/** A running node: one start-up, and then round after round of the update loop. What its methods promise
    makes its life one of those that CrashSafety speaks about. */
module NodeLife {
  import opened Bytes
  import opened Changeover
  import opened CrashSafety

  /** What the catalogue serves in one round, and how the surroundings behave. */
  datatype Round = Round(offer: Option<Target>, env: Surroundings)

  ghost function Grown(s: Snapshot, life: Life, x: Stretch): Life {
    Then(life, x, |Logged(After(s, life), x)|)
  }

  lemma GrownAfter(s: Snapshot, life: Life, x: Stretch)
    ensures After(s, Grown(s, life, x)) == ApplyAll(After(s, life), Logged(After(s, life), x))
    ensures RanVersion(s, Grown(s, life, x)) == if x.Stopped? then RanVersion(s, life) else x.target.version
  {
    var ops := Logged(After(s, life), x);
    assert ops[..|ops|] == ops;
  }

  /** The life so far accounts for the disk, was lived on offered models, and never polled backwards. */
  ghost predicate Accounts(node: NodeDaemon, s: Snapshot, offered: set<Target>, life: Life)
    reads node
  {
    && node.Valid() && node.Snap() == After(s, life)
    && Lived(node.underRoot, s, offered, life) && Polled(s, life)
  }

  /** The update loop. */
  method FollowChannel(node: NodeDaemon, rounds: seq<Round>, ghost s: Snapshot, ghost offered: set<Target>,
                       ghost early: Life) returns (ghost life: Life)
    requires Accounts(node, s, offered, early) && node.version == RanVersion(s, early)
    requires forall r :: r in rounds && r.offer.Some? ==> r.offer.value in offered
    modifies node
    ensures Accounts(node, s, offered, life) && node.version == RanVersion(s, life)
    ensures SameProcess(early, life) && node.version >= old(node.version)
  {
    life := early;
    for i := 0 to |rounds|
      invariant Accounts(node, s, offered, life) && node.version == RanVersion(s, life)
      invariant SameProcess(early, life) && node.version >= old(node.version)
    {
      assert rounds[i] in rounds;
      ghost var log := node.log;
      var r;
      ghost var x;
      r, x := node.PollChannel(rounds[i].offer, rounds[i].env);
      if r.Some? {
        ApplyConcat(node.origin, log, Logged(After(s, life), x.value));
        GrownAfter(s, life, x.value);
        life := Grown(s, life, x.value);
      }
    }
  }

  /** A whole process. Whatever it leaves, after whatever it found, state.json lists no missing file if
      different models have different destinations. */
  method RunProcess(node: NodeDaemon, t: Target, followsChannel: bool, env: Surroundings, rounds: seq<Round>,
                    ghost s: Snapshot, ghost offered: set<Target>, ghost early: Life)
    returns (ok: bool, ghost life: Life)
    requires Accounts(node, s, offered, early) && t in offered
    requires forall r :: r in rounds && r.offer.Some? ==> r.offer.value in offered
    modifies node
    ensures Accounts(node, s, offered, life)
    ensures ok ==> node.version == RanVersion(s, life) && node.version >= t.version
    ensures Distinct(offered) && Listed(s) && FromOffers(offered, s.saved) ==> Listed(node.Snap())
  {
    ghost var log := node.log;
    ghost var x;
    ok, x := node.StartUp(t, followsChannel, env);
    ApplyConcat(node.origin, log, Logged(After(s, early), x));
    GrownAfter(s, early, x);
    life := Grown(s, early, x);
    if ok {
      life := FollowChannel(node, rounds, s, offered, life);
    }
    if Distinct(offered) && Listed(s) && FromOffers(offered, s.saved) {
      StateJsonNeverDangles(node.underRoot, s, offered, life);
    }
  }
}
