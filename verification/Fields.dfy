/** Fixed-layout records of big-endian unsigned fields, as struct.pack and struct.unpack_from treat
    them: a record is given by the widths of its fields. */
module Fields {
  import opened Bytes

  function Size(widths: seq<nat>): nat {
    if widths == [] then 0 else widths[0] + Size(widths[1..])
  }

  /** struct.pack refuses any other list of values. */
  predicate InRange(widths: seq<nat>, values: seq<int>) {
    |values| == |widths| && forall i :: 0 <= i < |widths| ==> 0 <= values[i] < Span(widths[i])
  }

  function Pack(widths: seq<nat>, values: seq<int>): (s: seq<byte>)
    requires InRange(widths, values)
    ensures |s| == Size(widths)
  {
    if widths == [] then [] else ToBE(widths[0], values[0]) + Pack(widths[1..], values[1..])
  }

  function Unpack(widths: seq<nat>, s: seq<byte>): (values: seq<int>)
    requires Size(widths) <= |s|
    ensures InRange(widths, values)
  {
    if widths == [] then [] else [FromBE(s[..widths[0]]) as int] + Unpack(widths[1..], s[widths[0]..])
  }

  lemma {:induction false} UnpackPack(widths: seq<nat>, values: seq<int>, rest: seq<byte>)
    requires InRange(widths, values)
    ensures Unpack(widths, Pack(widths, values) + rest) == values
  {
    if widths != [] {
      var head, tail := ToBE(widths[0], values[0]), Pack(widths[1..], values[1..]);
      var s := head + tail + rest;
      FromToBE(widths[0], values[0]);
      UnpackPack(widths[1..], values[1..], rest);
      assert s[..widths[0]] == head;
      assert s[widths[0]..] == tail + rest;
    }
  }

  lemma {:induction false} PackUnpack(widths: seq<nat>, s: seq<byte>)
    requires Size(widths) <= |s|
    ensures Pack(widths, Unpack(widths, s)) == s[..Size(widths)]
  {
    if widths != [] {
      var w := widths[0];
      var head, tail := s[..w], s[w..];
      ToFromBE(head);
      PackUnpack(widths[1..], tail);
      assert s[..Size(widths)] == head + tail[..Size(widths[1..])];
    }
  }

  /** n fields of four bytes: the shape of a tensor. */
  function Words(n: nat): seq<nat> {
    seq(n, _ => 4)
  }

  lemma {:induction false} WordsSize(n: nat)
    ensures Size(Words(n)) == 4 * n
  {
    if n > 0 {
      WordsSize(n - 1);
      assert Words(n)[1..] == Words(n - 1);
    }
  }

  lemma {:induction false} SizeUpTo(widths: seq<nat>, k: nat)
    requires k < |widths|
    ensures Size(widths[..k + 1]) == Size(widths[..k]) + widths[k]
    decreases k
  {
    var tail := widths[1..];
    if k == 0 {
      assert widths[..1] == [widths[0]] && [widths[0]][1..] == [];
    } else {
      SizeUpTo(tail, k - 1);
      assert widths[..k + 1][1..] == tail[..k] && widths[..k][1..] == tail[..k - 1];
    }
  }

  /** Where field k stands, and what it reads as there. */
  lemma {:induction false} FieldAt(widths: seq<nat>, values: seq<int>, rest: seq<byte>, k: nat)
    requires InRange(widths, values) && k < |widths|
    ensures var s, at := Pack(widths, values) + rest, Size(widths[..k]);
            at + widths[k] <= |s| && FromBE(s[at..at + widths[k]]) == values[k]
    decreases k
  {
    if k == 0 {
      PackSplits(widths, values, rest);
      FromToBE(widths[0], values[0]);
      SliceOfTwo(ToBE(widths[0], values[0]), Pack(widths[1..], values[1..]) + rest);
    } else {
      FieldAt(widths[1..], values[1..], rest, k - 1);
      FieldMoves(widths, values, rest, k);
    }
  }

  /** Behind the first field, every field stands as far behind it as it stood without it. */
  lemma FieldMoves(widths: seq<nat>, values: seq<int>, rest: seq<byte>, k: nat)
    requires InRange(widths, values) && 0 < k < |widths|
    requires Size(widths[1..][..k - 1]) + widths[k] <= |Pack(widths[1..], values[1..]) + rest|
    ensures var s, at := Pack(widths, values) + rest, Size(widths[..k]);
            var s', at' := Pack(widths[1..], values[1..]) + rest, Size(widths[1..][..k - 1]);
            at + widths[k] <= |s| && s[at..at + widths[k]] == s'[at'..at' + widths[k]]
  {
    PackSplits(widths, values, rest);
    SizeStep(widths, k);
    SliceBehind(Pack(widths, values) + rest, ToBE(widths[0], values[0]), Pack(widths[1..], values[1..]) + rest,
                Size(widths[1..][..k - 1]), widths[k]);
  }

  lemma SizeStep(widths: seq<nat>, k: nat)
    requires 0 < k < |widths|
    ensures Size(widths[..k]) == widths[0] + Size(widths[1..][..k - 1])
  {
    assert widths[..k][1..] == widths[1..][..k - 1];
  }

  lemma PackSplits(widths: seq<nat>, values: seq<int>, rest: seq<byte>)
    requires InRange(widths, values) && widths != []
    ensures Pack(widths, values) + rest == ToBE(widths[0], values[0]) + (Pack(widths[1..], values[1..]) + rest)
  {
  }

  lemma SliceOfTwo(a: seq<byte>, b: seq<byte>)
    ensures (a + b)[..|a|] == a
  {
  }

  lemma SliceBehind(s: seq<byte>, a: seq<byte>, b: seq<byte>, at: nat, n: nat)
    requires s == a + b && at + n <= |b|
    ensures |a| + at + n <= |s| && s[|a| + at..|a| + at + n] == b[at..at + n]
  {
  }
}
