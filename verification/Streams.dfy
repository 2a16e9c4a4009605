/** Messages on a byte stream, whatever their format: if each one delimits itself, a stream that
    breaks anywhere yields the messages that went out whole, and then its end. */
module Streams {
  import opened Bytes

  /** One read: its outcome and what is left of the stream. */
  type Reader<R> = seq<byte> -> (R, seq<byte>)

  /** A message as it was written, and the outcome of reading it. */
  datatype Message<R> = Message(wire: seq<byte>, outcome: R)

  function Joined<R>(messages: seq<Message<R>>): seq<byte> {
    if messages == [] then [] else messages[0].wire + Joined(messages[1..])
  }

  function Outcomes<R>(messages: seq<Message<R>>): (r: seq<R>)
    ensures |r| == |messages| && forall i :: 0 <= i < |r| ==> r[i] == messages[i].outcome
  {
    if messages == [] then [] else [messages[0].outcome] + Outcomes(messages[1..])
  }

  /** Reading s again and again gives these outcomes, and then the end. */
  ghost predicate Yields<R(!new)>(read: Reader<R>, s: seq<byte>, outcomes: seq<R>, end: R)
    decreases |outcomes|
  {
    if outcomes == [] then read(s).0 == end
    else read(s).0 == outcomes[0] && Yields(read, read(s).1, outcomes[1..], end)
  }

  /** A read takes the message and no more, and takes no part of it for a message. */
  ghost predicate Delimits<R(!new)>(read: Reader<R>, m: Message<R>, end: R) {
    && (forall tail: seq<byte> :: read(m.wire + tail) == (m.outcome, tail))
    && (forall n: nat :: n < |m.wire| ==> read(m.wire[..n]).0 == end)
  }

  /** The messages of which a cut stream holds every byte. */
  function Whole<R>(messages: seq<Message<R>>, n: nat): (k: nat)
    ensures k <= |messages|
  {
    if messages == [] || n < |messages[0].wire| then 0
    else 1 + Whole(messages[1..], n - |messages[0].wire|)
  }

  lemma {:induction false} WholeStream<R>(messages: seq<Message<R>>)
    ensures Whole(messages, |Joined(messages)|) == |messages|
  {
    if messages != [] {
      WholeStream(messages[1..]);
    }
  }

  /** k counts exactly the messages whose last byte came before the cut. */
  lemma {:induction false} WholeFits<R>(messages: seq<Message<R>>, n: nat)
    requires n <= |Joined(messages)|
    ensures var k := Whole(messages, n);
            && |Joined(messages[..k])| <= n
            && (k < |messages| ==> n < |Joined(messages[..k])| + |messages[k].wire|)
  {
    if messages != [] && n >= |messages[0].wire| {
      var k := Whole(messages[1..], n - |messages[0].wire|);
      WholeFits(messages[1..], n - |messages[0].wire|);
      assert messages[..k + 1][1..] == messages[1..][..k];
    }
  }

  lemma {:induction false} CutYields<R(!new)>(read: Reader<R>, messages: seq<Message<R>>, end: R, n: nat)
    requires forall i :: 0 <= i < |messages| ==> Delimits(read, messages[i], end)
    requires read([]).0 == end
    requires n <= |Joined(messages)|
    ensures Yields(read, Joined(messages)[..n], Outcomes(messages[..Whole(messages, n)]), end)
    decreases |messages|
  {
    if messages != [] {
      var first, tail := messages[0].wire, Joined(messages[1..]);
      if n < |first| {
        assert (first + tail)[..n] == first[..n];
      } else {
        var m := n - |first|;
        var k := Whole(messages[1..], m);
        CutYields(read, messages[1..], end, m);
        assert (first + tail)[..n] == first + tail[..m];
        assert messages[..k + 1][1..] == messages[1..][..k];
      }
    }
  }
}
