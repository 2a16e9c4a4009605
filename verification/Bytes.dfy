/** Bytes and big-endian fields, as Python's struct module and int.to_bytes lay them out. */
module Bytes {

  newtype byte = x: int | 0 <= x < 256

  datatype Option<+T> = None | Some(value: T)

  /** How many values fit in `width` bytes. */
  function Span(width: nat): (n: nat)
    ensures n >= 1
  {
    if width == 0 then 1 else 256 * Span(width - 1)
  }

  /** The `width`-byte big-endian form of n; n must be in range, as struct.pack demands. */
  function ToBE(width: nat, n: nat): (s: seq<byte>)
    requires n < Span(width)
    ensures |s| == width
  {
    if width == 0 then [] else ToBE(width - 1, n / 256) + [(n % 256) as byte]
  }

  function FromBE(s: seq<byte>): (n: nat)
    ensures n < Span(|s|)
  {
    if s == [] then 0 else FromBE(s[..|s| - 1]) * 256 + s[|s| - 1] as nat
  }

  lemma {:induction false} FromToBE(width: nat, n: nat)
    requires n < Span(width)
    ensures FromBE(ToBE(width, n)) == n
  {
    if width > 0 {
      FromToBE(width - 1, n / 256);
      var s := ToBE(width, n);
      assert s[..|s| - 1] == ToBE(width - 1, n / 256);
    }
  }

  lemma {:induction false} ToFromBE(s: seq<byte>)
    ensures ToBE(|s|, FromBE(s)) == s
  {
    if s != [] {
      var t := s[..|s| - 1];
      ToFromBE(t);
      assert FromBE(s) / 256 == FromBE(t) && FromBE(s) % 256 == s[|s| - 1] as nat;
      assert s == t + [s[|s| - 1]];
    }
  }

  /** Fields of equal width that read as the same number are the same bytes. */
  lemma FromBEInjective(s: seq<byte>, t: seq<byte>)
    requires |s| == |t| && FromBE(s) == FromBE(t)
    ensures s == t
  {
    ToFromBE(s);
    ToFromBE(t);
  }

  lemma Spans()
    ensures Span(1) == 0x100 && Span(2) == 0x1_0000 && Span(4) == 0x1_0000_0000
    ensures Span(8) == 0x1_0000_0000_0000_0000
  {
    assert Span(3) == 256 * Span(2);
    assert Span(5) == 256 * Span(4) && Span(6) == 256 * Span(5) && Span(7) == 256 * Span(6);
  }

  /** A concatenation of equally long first parts splits in one way only. */
  lemma SplitConcat<T>(a: seq<T>, b: seq<T>, c: seq<T>, d: seq<T>)
    requires |a| == |c| && a + b == c + d
    ensures a == c && b == d
  {
    assert a == (a + b)[..|a|] && c == (c + d)[..|a|];
    assert b == (a + b)[|a|..] && d == (c + d)[|a|..];
  }

  /** The first byte is the most significant one. */
  lemma {:induction false} FirstByteCountsMost(high: byte, rest: seq<byte>)
    ensures FromBE([high] + rest) == high as nat * Span(|rest|) + FromBE(rest)
  {
    var s := [high] + rest;
    if rest == [] {
      assert s[..0] == [];
    } else {
      var shorter := rest[..|rest| - 1];
      FirstByteCountsMost(high, shorter);
      assert s[..|s| - 1] == [high] + shorter;
      HornerStep(high as nat, Span(|shorter|), FromBE(shorter), rest[|rest| - 1] as nat);
    }
  }

  lemma HornerStep(high: nat, span: nat, middle: nat, low: nat)
    ensures (high * span + middle) * 256 + low == high * (256 * span) + (middle * 256 + low)
  {
  }
}
