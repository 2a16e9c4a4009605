/** The Merkle root over a block's entry hashes: levels are paired and hashed until one node is
    left, and an odd level repeats its last node. */
module Merkle {
  import opened Bytes

  /** A 32-byte digest; its hexadecimal spelling is not kept apart from it. */
  type Digest = s: seq<byte> | |s| == 32 witness seq(32, _ => 0)

  function ZeroDigest(): Digest {
    seq(32, _ => 0)
  }

  type Hash = seq<byte> -> Digest

  /** What one parent node hashes. */
  function Join(left: Digest, right: Digest): (r: seq<byte>) {
    var first: seq<byte> := left;
    first + right
  }

  function Padded(level: seq<Digest>): (r: seq<Digest>)
    ensures |r| % 2 == 0
  {
    if |level| % 2 == 1 then level + [level[|level| - 1]] else level
  }

  function Paired(h: Hash, level: seq<Digest>): (r: seq<Digest>)
    requires |level| % 2 == 0
    ensures |r| == |level| / 2
    ensures forall i :: 0 <= i < |r| ==> r[i] == h(Join(level[2 * i], level[2 * i + 1]))
  {
    seq(|level| / 2, i requires 0 <= i < |level| / 2 => h(Join(level[2 * i], level[2 * i + 1])))
  }

  function Above(h: Hash, level: seq<Digest>): (r: seq<Digest>)
    ensures |r| == (|level| + 1) / 2
  {
    Paired(h, Padded(level))
  }

  function Top(h: Hash, level: seq<Digest>): Digest
    requires level != []
    decreases |level|
  {
    if |level| == 1 then level[0] else Top(h, Above(h, level))
  }

  function Root(h: Hash, leaves: seq<Digest>): Digest {
    if leaves == [] then h([]) else Top(h, leaves)
  }

  method HashPairs(h: Hash, level: seq<Digest>) returns (next: seq<Digest>)
    requires |level| % 2 == 0
    ensures next == Paired(h, level)
  {
    next := [];
    for i := 0 to |level| / 2
      invariant next == Paired(h, level)[..i]
    {
      next := next + [h(Join(level[2 * i], level[2 * i + 1]))];
    }
  }

  /** merkle_root as the source runs it: rebuild `level` until it holds one node. */
  method ComputeRoot(h: Hash, leaves: seq<Digest>) returns (root: Digest)
    ensures root == Root(h, leaves)
  {
    if leaves == [] {
      return h([]);
    }
    var level := leaves;
    while |level| > 1
      invariant level != [] && Top(h, level) == Root(h, leaves)
      decreases |level|
    {
      ghost var padded := Padded(level);
      if |level| % 2 != 0 {
        level := level + [level[|level| - 1]];
      }
      assert level == padded;
      level := HashPairs(h, level);
    }
    root := level[0];
  }

  // ---- what is hashed on the way -------------------------------------------------------------

  /** No two of the strings in `inputs` share a digest. Only strings that are really hashed are
      asked about: no hash with 32-byte digests is free of collisions everywhere. */
  ghost predicate DistinctOn(h: Hash, inputs: set<seq<byte>>) {
    forall p, q :: p in inputs && q in inputs && h(p) == h(q) ==> p == q
  }

  ghost function PairInputs(level: seq<Digest>): (r: set<seq<byte>>)
    requires |level| % 2 == 0
  {
    set i | 0 <= i < |level| / 2 :: Join(level[2 * i], level[2 * i + 1])
  }

  /** Every string that computing the root of a level hashes. */
  ghost function NodeInputs(h: Hash, level: seq<Digest>): set<seq<byte>>
    decreases |level|
  {
    if |level| <= 1 then {} else PairInputs(Padded(level)) + NodeInputs(h, Above(h, level))
  }

  lemma PairInputsAt(level: seq<Digest>, i: nat)
    requires |level| % 2 == 0 && i < |level| / 2
    ensures Join(level[2 * i], level[2 * i + 1]) in PairInputs(level)
  {
  }

  lemma PairedInjective(h: Hash, a: seq<Digest>, b: seq<Digest>, inputs: set<seq<byte>>)
    requires |a| == |b| && |a| % 2 == 0
    requires Paired(h, a) == Paired(h, b)
    requires PairInputs(a) <= inputs && PairInputs(b) <= inputs && DistinctOn(h, inputs)
    ensures a == b
  {
    forall j | 0 <= j < |a|
      ensures a[j] == b[j]
    {
      var i := j / 2;
      PairInputsAt(a, i);
      PairInputsAt(b, i);
      assert Paired(h, a)[i] == Paired(h, b)[i];
      SplitConcat<byte>(a[2 * i], a[2 * i + 1], b[2 * i], b[2 * i + 1]);
      assert j == 2 * i || j == 2 * i + 1;
    }
  }

  /** The root binds the leaves: equally many leaves with the same root are the same leaves, unless
      two different strings hashed for these very roots collide. */
  lemma {:induction false} TopBinds(h: Hash, a: seq<Digest>, b: seq<Digest>, inputs: set<seq<byte>>)
    requires |a| == |b| && a != []
    requires Top(h, a) == Top(h, b)
    requires NodeInputs(h, a) <= inputs && NodeInputs(h, b) <= inputs && DistinctOn(h, inputs)
    ensures a == b
    decreases |a|
  {
    if |a| > 1 {
      TopBinds(h, Above(h, a), Above(h, b), inputs);
      PairedInjective(h, Padded(a), Padded(b), inputs);
      assert a == Padded(a)[..|a|] && b == Padded(b)[..|b|];
    }
  }

  lemma RootBinds(h: Hash, a: seq<Digest>, b: seq<Digest>, inputs: set<seq<byte>>)
    requires |a| == |b|
    requires Root(h, a) == Root(h, b)
    requires NodeInputs(h, a) <= inputs && NodeInputs(h, b) <= inputs && DistinctOn(h, inputs)
    ensures a == b
  {
    if a != [] {
      TopBinds(h, a, b, inputs);
    }
  }

  /** Why a block also has to state how many entries it holds: repeating the last of an odd number of
      leaves, three or more, never changes the root, whatever the hash. */
  lemma RepeatedLastLeaf(h: Hash, leaves: seq<Digest>)
    requires |leaves| % 2 == 1 && |leaves| >= 3
    ensures Root(h, leaves + [leaves[|leaves| - 1]]) == Root(h, leaves)
    ensures leaves + [leaves[|leaves| - 1]] != leaves
  {
    var longer := leaves + [leaves[|leaves| - 1]];
    assert Padded(leaves) == longer == Padded(longer);
    assert Above(h, longer) == Above(h, leaves);
    assert |longer| != |leaves|;
  }

  // ---- the shape of the tree -------------------------------------------------------------------

  lemma PairedConcat(h: Hash, a: seq<Digest>, b: seq<Digest>)
    requires |a| % 2 == 0 && |b| % 2 == 0
    ensures Paired(h, a + b) == Paired(h, a) + Paired(h, b)
  {
    forall i | 0 <= i < (|a| + |b|) / 2
      ensures Paired(h, a + b)[i] == (Paired(h, a) + Paired(h, b))[i]
    {
      assert 2 * i + 1 < |a| || 2 * i >= |a|;
    }
  }

  function Doubled(k: nat): (n: nat)
    ensures n >= 1
  {
    if k == 0 then 1 else 2 * Doubled(k - 1)
  }

  lemma RootOfTwo(h: Hash, x: Digest, y: Digest)
    ensures Root(h, [x, y]) == h(x + y)
  {
    var pair := [x, y];
    assert Padded(pair) == pair;
    assert Above(h, pair) == [h(Join(pair[0], pair[1]))];
    RootAbove(h, pair);
    JoinIs(x, y);
  }

  lemma RootAbove(h: Hash, level: seq<Digest>)
    requires |level| > 1
    ensures Root(h, level) == Root(h, Above(h, level))
  {
  }

  lemma AboveConcat(h: Hash, a: seq<Digest>, b: seq<Digest>)
    requires |a| % 2 == 0 && |b| % 2 == 0
    ensures Above(h, a + b) == Above(h, a) + Above(h, b)
  {
    PairedConcat(h, a, b);
  }

  /** A tree over two equal halves, each of a power of two: the root hashes the left half's root and then
      the right half's. */
  lemma {:induction false} RootOfHalves(h: Hash, a: seq<Digest>, b: seq<Digest>, k: nat)
    requires |a| == |b| == Doubled(k)
    ensures Root(h, a + b) == h(Root(h, a) + Root(h, b))
    decreases k
  {
    if k == 0 {
      assert a + b == [a[0], b[0]];
      RootOfTwo(h, a[0], b[0]);
    } else {
      RootOfHalves(h, Above(h, a), Above(h, b), k - 1);
      HalvesAbove(h, a, b);
    }
  }

  lemma HalvesAbove(h: Hash, a: seq<Digest>, b: seq<Digest>)
    requires |a| == |b| > 0 && |a| % 2 == 0
    ensures Root(h, a + b) == Root(h, Above(h, a) + Above(h, b))
    ensures Root(h, a) == Root(h, Above(h, a)) && Root(h, b) == Root(h, Above(h, b))
  {
    AboveConcat(h, a, b);
    RootAbove(h, a + b);
    RootAbove(h, a);
    RootAbove(h, b);
  }

  lemma JoinIs(left: Digest, right: Digest)
    ensures Join(left, right) == left + right
  {
  }

  /** The smallest trees: nothing, one leaf, and three leaves of which the last is repeated. */
  lemma SmallRoots(h: Hash, x: Digest, y: Digest, z: Digest)
    ensures Root(h, []) == h([]) && Root(h, [x]) == x
    ensures Root(h, [x, y, z]) == h(h(x + y) + h(z + z))
  {
    RepeatedLastLeaf(h, [x, y, z]);
    assert [x, y, z] + [z] == [x, y] + [z, z];
    RootOfHalves(h, [x, y], [z, z], 1);
    RootOfTwo(h, x, y);
    RootOfTwo(h, z, z);
  }
}
