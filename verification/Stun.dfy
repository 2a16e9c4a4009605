/** The STUN client (RFC 5389): a Binding Request, and the reflexive address in the response. */
module Stun {
  import opened Bytes

  /** The magic cookie 0x2112A442, big-endian. */
  const COOKIE: seq<byte> := [0x21, 0x12, 0xA4, 0x42]
  const COOKIE_TOP: nat := 0x2112
  const BINDING_REQUEST: nat := 0x0001
  const BINDING_SUCCESS: nat := 0x0101
  const MAPPED_ADDRESS: nat := 0x0001
  const XOR_MAPPED_ADDRESS: nat := 0x0020
  const FAMILY_IPV4: byte := 1
  const HEADER: nat := 20

  datatype Address = Address(ip: seq<byte>, port: nat)

  /** An attribute as the client sees it: a value is cut short where the message ends. */
  datatype Attribute = Attribute(kind: nat, value: seq<byte>)

  /** A 16-bit field, big-endian. */
  function Short(s: seq<byte>, at: nat): (n: nat)
    requires at + 2 <= |s|
    ensures n < 0x1_0000
  {
    s[at] as nat * 256 + s[at + 1] as nat
  }

  function ShortBytes(n: nat): (s: seq<byte>)
    requires n < 0x1_0000
    ensures |s| == 2 && Short(s, 0) == n
  {
    [(n / 256) as byte, (n % 256) as byte]
  }

  // ---- exclusive or ------------------------------------------------------------------------------

  /** Exclusive or, bit by bit. */
  function Xor(a: nat, b: nat): (r: nat)
    decreases a + b
  {
    if a == 0 && b == 0 then 0 else 2 * Xor(a / 2, b / 2) + if a % 2 == b % 2 then 0 else 1
  }

  lemma {:induction false} XorTwice(a: nat, b: nat)
    ensures Xor(Xor(a, b), b) == a
    decreases a + b
  {
    if a != 0 || b != 0 {
      var x := Xor(a, b);
      assert x / 2 == Xor(a / 2, b / 2);
      assert (x % 2 == b % 2) <==> (a % 2 == 0);
      XorTwice(a / 2, b / 2);
      XorZero(x, b);
    }
  }

  /** The equation of Xor, also where both sides are zero. */
  lemma XorZero(a: nat, b: nat)
    ensures Xor(a, b) == 2 * Xor(a / 2, b / 2) + if a % 2 == b % 2 then 0 else 1
  {
    assert Xor(0, 0) == 0;
  }

  /** It has no more bits than its arguments: limit is a power of two. */
  ghost predicate PowerOfTwo(limit: nat) {
    limit == 1 || (limit > 1 && limit % 2 == 0 && PowerOfTwo(limit / 2))
  }

  lemma {:induction false} XorFits(limit: nat, a: nat, b: nat)
    requires PowerOfTwo(limit) && a < limit && b < limit
    ensures Xor(a, b) < limit
    decreases limit
  {
    if limit > 1 {
      XorFits(limit / 2, a / 2, b / 2);
      XorZero(a, b);
    }
  }

  lemma ByteAndShortLimits()
    ensures PowerOfTwo(0x100) && PowerOfTwo(0x1_0000)
  {
    assert PowerOfTwo(0x10);
    assert PowerOfTwo(0x1000);
  }

  function XorByte(a: byte, b: byte): (r: byte)
    ensures r as nat == Xor(a as nat, b as nat)
  {
    ByteAndShortLimits();
    XorFits(0x100, a as nat, b as nat);
    Xor(a as nat, b as nat) as byte
  }

  lemma XorByteTwice(a: byte, b: byte)
    ensures XorByte(XorByte(a, b), b) == a
  {
    XorTwice(a as nat, b as nat);
  }

  /** Exclusive or of an address with the bytes of the cookie. */
  function Masked(ip: seq<byte>): (r: seq<byte>)
    requires |ip| == 4
    ensures |r| == 4
  {
    [XorByte(ip[0], COOKIE[0]), XorByte(ip[1], COOKIE[1]), XorByte(ip[2], COOKIE[2]), XorByte(ip[3], COOKIE[3])]
  }

  lemma MaskedTwice(ip: seq<byte>)
    requires |ip| == 4
    ensures Masked(Masked(ip)) == ip
  {
    XorByteTwice(ip[0], COOKIE[0]);
    XorByteTwice(ip[1], COOKIE[1]);
    XorByteTwice(ip[2], COOKIE[2]);
    XorByteTwice(ip[3], COOKIE[3]);
  }

  // ---- what a response says ----------------------------------------------------------------------

  function Padding(length: nat): (n: nat)
    ensures n < 4 && (length + n) % 4 == 0
  {
    if length % 4 == 0 then 0 else 4 - length % 4
  }

  function Min(a: nat, b: nat): nat {
    if a < b then a else b
  }

  function AttributeAt(body: seq<byte>, off: nat): Attribute
    requires off + 4 <= |body|
  {
    Attribute(Short(body, off), body[off + 4..Min(off + 4 + Short(body, off + 2), |body|)])
  }

  /** Attributes are padded to a multiple of four bytes. */
  function NextAt(body: seq<byte>, off: nat): (next: nat)
    requires off + 4 <= |body|
    ensures next > off
  {
    off + 4 + Short(body, off + 2) + Padding(Short(body, off + 2))
  }

  predicate IsIPv4(value: seq<byte>) {
    |value| >= 8 && value[1] == FAMILY_IPV4
  }

  /** The address in an attribute's value; that of an XOR-MAPPED-ADDRESS is masked by the cookie. */
  function AddressIn(a: Attribute): Address
    requires IsIPv4(a.value)
  {
    var port, ip := Short(a.value, 2), a.value[4..8];
    if a.kind == XOR_MAPPED_ADDRESS then Address(Masked(ip), Xor(port, COOKIE_TOP)) else Address(ip, port)
  }

  predicate Carries(a: Attribute, kind: nat) {
    a.kind == kind && IsIPv4(a.value)
  }

  /** The latest address found, once an attribute has been looked at. */
  function Updated(found: Option<Address>, a: Attribute, kind: nat): Option<Address> {
    if Carries(a, kind) then Some(AddressIn(a)) else found
  }

  /** The last IPv4 address of one kind among the attributes of a message body from `off` on, or else
      the one found so far. */
  function LastFrom(body: seq<byte>, off: nat, kind: nat, found: Option<Address>): Option<Address>
    decreases |body| - off
  {
    if off + 4 > |body| then found else
    LastFrom(body, NextAt(body, off), kind, Updated(found, AttributeAt(body, off), kind))
  }

  lemma LastFromEnd(body: seq<byte>, off: nat, kind: nat, found: Option<Address>)
    requires off + 4 > |body|
    ensures LastFrom(body, off, kind, found) == found
  {
  }

  /** What the client reports for a message body: an XOR-MAPPED-ADDRESS before a MAPPED-ADDRESS. */
  function Reflexive(body: seq<byte>): Option<Address> {
    var masked := LastFrom(body, 0, XOR_MAPPED_ADDRESS, None);
    if masked.Some? then masked else LastFrom(body, 0, MAPPED_ADDRESS, None)
  }

  predicate Accepts(data: seq<byte>, txn: seq<byte>) {
    && |data| >= HEADER
    && Short(data, 0) == BINDING_SUCCESS
    && data[4..8] == COOKIE
    && data[8..HEADER] == txn
  }

  function Body(data: seq<byte>): seq<byte>
    requires |data| >= HEADER
  {
    data[HEADER..Min(HEADER + Short(data, 2), |data|)]
  }

  /** What one attribute changes. */
  method TakeAttribute(kind: nat, value: seq<byte>, mapped: Option<Address>, xorMapped: Option<Address>)
    returns (mapped': Option<Address>, xorMapped': Option<Address>)
    ensures mapped' == Updated(mapped, Attribute(kind, value), MAPPED_ADDRESS)
    ensures xorMapped' == Updated(xorMapped, Attribute(kind, value), XOR_MAPPED_ADDRESS)
  {
    mapped', xorMapped' := mapped, xorMapped;
    if !IsIPv4(value) {
      return;
    }
    var port, ip := Short(value, 2), value[4..8];
    if kind == XOR_MAPPED_ADDRESS {
      xorMapped' := Some(Address(Masked(ip), Xor(port, COOKIE_TOP)));
    } else if kind == MAPPED_ADDRESS {
      mapped' := Some(Address(ip, port));
    }
  }

  /** One round of the client's loop: the addresses found, and where the next attribute begins. */
  method Round(body: seq<byte>, off: nat, mapped: Option<Address>, xorMapped: Option<Address>)
    returns (off': nat, mapped': Option<Address>, xorMapped': Option<Address>)
    requires off + 4 <= |body|
    ensures off' == NextAt(body, off)
    ensures mapped' == Updated(mapped, AttributeAt(body, off), MAPPED_ADDRESS)
    ensures xorMapped' == Updated(xorMapped, AttributeAt(body, off), XOR_MAPPED_ADDRESS)
  {
    var kind, length := Short(body, off), Short(body, off + 2);
    var value := body[off + 4..Min(off + 4 + length, |body|)];
    mapped', xorMapped' := TakeAttribute(kind, value, mapped, xorMapped);
    off' := off + 4 + length + Padding(length);
  }

  /** _parse_binding_response, on any bytes whatever. */
  method ParseBindingResponse(data: seq<byte>, txn: seq<byte>) returns (r: Option<Address>)
    ensures r == if Accepts(data, txn) then Reflexive(Body(data)) else None
  {
    if |data| < HEADER {
      return None;
    }
    if Short(data, 0) != BINDING_SUCCESS || data[4..8] != COOKIE || data[8..HEADER] != txn {
      return None;
    }
    var body := data[HEADER..Min(HEADER + Short(data, 2), |data|)];
    var mapped, xorMapped := None, None;
    var off: nat := 0;
    while off + 4 <= |body|
      invariant LastFrom(body, 0, MAPPED_ADDRESS, None) == LastFrom(body, off, MAPPED_ADDRESS, mapped)
      invariant LastFrom(body, 0, XOR_MAPPED_ADDRESS, None) == LastFrom(body, off, XOR_MAPPED_ADDRESS, xorMapped)
      decreases |body| - off
    {
      off, mapped, xorMapped := Round(body, off, mapped, xorMapped);
    }
    r := if xorMapped.Some? then xorMapped else mapped;
  }

  // ---- what a server prints ----------------------------------------------------------------------

  function Header(kind: nat, length: nat, txn: seq<byte>): (s: seq<byte>)
    requires kind < 0x1_0000 && length < 0x1_0000
    ensures |s| == 8 + |txn|
  {
    ShortBytes(kind) + (ShortBytes(length) + (COOKIE + txn))
  }

  lemma HeaderParts(kind: nat, length: nat, txn: seq<byte>, rest: seq<byte>)
    requires kind < 0x1_0000 && length < 0x1_0000
    ensures var s := Header(kind, length, txn) + rest;
            && Short(s, 0) == kind && Short(s, 2) == length && s[4..8] == COOKIE
            && s[8..8 + |txn|] == txn && s[8 + |txn|..] == rest
  {
    var s := Header(kind, length, txn) + rest;
    assert s[4..8] == COOKIE;
    assert s[8..8 + |txn|] == txn;
  }

  function BindingRequest(txn: seq<byte>): (s: seq<byte>)
    requires |txn| == 12
    ensures |s| == HEADER
  {
    Header(BINDING_REQUEST, 0, txn)
  }

  /** Padding bytes may have any value. */
  datatype Printed = Printed(attribute: Attribute, padding: seq<byte>)

  ghost predicate WellFormed(p: Printed) {
    p.attribute.kind < 0x1_0000 && |p.attribute.value| < 0x1_0000 && |p.padding| == Padding(|p.attribute.value|)
  }

  ghost predicate AllWellFormed(attributes: seq<Printed>) {
    forall i :: 0 <= i < |attributes| ==> WellFormed(attributes[i])
  }

  ghost function PrintOne(a: Attribute, padding: seq<byte>, rest: seq<byte>): seq<byte>
    requires WellFormed(Printed(a, padding))
  {
    ShortBytes(a.kind) + (ShortBytes(|a.value|) + (a.value + (padding + rest)))
  }

  ghost function Print(attributes: seq<Printed>): (s: seq<byte>)
    requires AllWellFormed(attributes)
  {
    if attributes == [] then [] else
      assert WellFormed(attributes[0]);
      PrintOne(attributes[0].attribute, attributes[0].padding, Print(attributes[1..]))
  }

  /** The last printed IPv4 address of one kind, or else the one found so far. */
  function LastPrinted(attributes: seq<Printed>, kind: nat, found: Option<Address>): Option<Address> {
    if attributes == [] then found else
    LastPrinted(attributes[1..], kind, Updated(found, attributes[0].attribute, kind))
  }

  /** It is that of an attribute after which no other one of the kind comes, or none carries one. */
  lemma {:induction false} LastPrintedIsLast(attributes: seq<Printed>, kind: nat, found: Option<Address>)
    ensures || (LastPrinted(attributes, kind, found) == found
                && forall j :: 0 <= j < |attributes| ==> !Carries(attributes[j].attribute, kind))
            || exists i :: 0 <= i < |attributes| && LastAt(attributes, kind, i)
                 && LastPrinted(attributes, kind, found) == Some(AddressIn(attributes[i].attribute))
  {
    if attributes != [] {
      var a, rest := attributes[0].attribute, attributes[1..];
      var now := Updated(found, a, kind);
      LastPrintedIsLast(rest, kind, now);
      if i :| && 0 <= i < |rest| && LastAt(rest, kind, i)
              && LastPrinted(rest, kind, now) == Some(AddressIn(rest[i].attribute)) {
        assert LastAt(attributes, kind, i + 1);
      } else if Carries(a, kind) {
        assert LastAt(attributes, kind, 0);
      }
    }
  }

  ghost predicate LastAt(attributes: seq<Printed>, kind: nat, i: nat)
    requires i < |attributes|
  {
    && Carries(attributes[i].attribute, kind)
    && forall j :: i < j < |attributes| ==> !Carries(attributes[j].attribute, kind)
  }

  lemma PrintOneParts(s: seq<byte>, a: Attribute, padding: seq<byte>, rest: seq<byte>)
    requires WellFormed(Printed(a, padding)) && s == PrintOne(a, padding, rest)
    ensures |s| >= 4 + |a.value| + |padding|
    ensures Short(s, 0) == a.kind && Short(s, 2) == |a.value|
    ensures s[4..4 + |a.value|] == a.value && s[4 + |a.value| + |padding|..] == rest
  {
  }

  lemma OnePrinted(body: seq<byte>, off: nat, a: Attribute, padding: seq<byte>, rest: seq<byte>)
    requires WellFormed(Printed(a, padding))
    requires off <= |body| && body[off..] == PrintOne(a, padding, rest)
    ensures var next := off + 4 + |a.value| + |padding|;
            off + 4 <= next <= |body| && body[next..] == rest
            && AttributeAt(body, off) == a && NextAt(body, off) == next
  {
    PrintOneParts(body[off..], a, padding, rest);
    var n := |a.value|;
    assert Short(body, off) == a.kind && Short(body, off + 2) == n;
    assert body[off + 4..off + 4 + n] == body[off..][4..4 + n];
    assert body[off + 4 + n + |padding|..] == body[off..][4 + n + |padding|..];
  }

  lemma NextPrinted(body: seq<byte>, off: nat, attributes: seq<Printed>)
    requires AllWellFormed(attributes) && attributes != []
    requires off <= |body| && body[off..] == Print(attributes)
    ensures off + 4 <= |body| && AttributeAt(body, off) == attributes[0].attribute
    ensures AllWellFormed(attributes[1..])
    ensures NextAt(body, off) <= |body| && body[NextAt(body, off)..] == Print(attributes[1..])
  {
    assert WellFormed(attributes[0]);
    OnePrinted(body, off, attributes[0].attribute, attributes[0].padding, Print(attributes[1..]));
  }

  lemma FoundFirst(body: seq<byte>, off: nat, attributes: seq<Printed>, kind: nat, found: Option<Address>)
    requires attributes != [] && off + 4 <= |body| && AttributeAt(body, off) == attributes[0].attribute
    requires var now := Updated(found, attributes[0].attribute, kind);
             LastFrom(body, NextAt(body, off), kind, now) == LastPrinted(attributes[1..], kind, now)
    ensures LastFrom(body, off, kind, found) == LastPrinted(attributes, kind, found)
  {
  }

  /** The client finds the very addresses that were printed, whatever stands in the padding. */
  lemma {:induction false} FoundAsPrinted(body: seq<byte>, off: nat, attributes: seq<Printed>, kind: nat,
                                          found: Option<Address>)
    requires AllWellFormed(attributes)
    requires off <= |body| && body[off..] == Print(attributes)
    ensures LastFrom(body, off, kind, found) == LastPrinted(attributes, kind, found)
    decreases |attributes|
  {
    if attributes != [] {
      NextPrinted(body, off, attributes);
      FoundAsPrinted(body, NextAt(body, off), attributes[1..], kind, Updated(found, attributes[0].attribute, kind));
      FoundFirst(body, off, attributes, kind, found);
    } else {
      LastFromEnd(body, off, kind, found);
    }
  }

  /** A server's response to a request, which carries its transaction id. */
  ghost function Response(request: seq<byte>, attributes: seq<Printed>): seq<byte>
    requires |request| == HEADER
    requires AllWellFormed(attributes)
    requires |Print(attributes)| < 0x1_0000
  {
    Header(BINDING_SUCCESS, |Print(attributes)|, request[8..]) + Print(attributes)
  }

  /** What the client makes of any list of padded attributes in answer to its own request: the last
      IPv4 XOR-MAPPED-ADDRESS, else the last IPv4 MAPPED-ADDRESS, else nothing. */
  lemma ParseUndoesPrint(txn: seq<byte>, attributes: seq<Printed>)
    requires |txn| == 12
    requires AllWellFormed(attributes)
    requires |Print(attributes)| < 0x1_0000
    ensures var data := Response(BindingRequest(txn), attributes);
            var masked := LastPrinted(attributes, XOR_MAPPED_ADDRESS, None);
            && Accepts(data, txn)
            && Reflexive(Body(data)) == if masked.Some? then masked else LastPrinted(attributes, MAPPED_ADDRESS, None)
  {
    var body := Print(attributes);
    HeaderParts(BINDING_REQUEST, 0, txn, []);
    assert BindingRequest(txn) + [] == BindingRequest(txn);
    assert BindingRequest(txn)[8..] == txn;
    HeaderParts(BINDING_SUCCESS, |body|, txn, body);
    var data := Response(BindingRequest(txn), attributes);
    assert Body(data) == body;
    assert body[0..] == body;
    FoundAsPrinted(body, 0, attributes, XOR_MAPPED_ADDRESS, None);
    FoundAsPrinted(body, 0, attributes, MAPPED_ADDRESS, None);
  }

  /** The value of an address attribute, section 15.1 of RFC 5389; masked as section 15.2 says. */
  function AddressValue(a: Address, kind: nat): seq<byte>
    requires |a.ip| == 4 && a.port < 0x1_0000
  {
    PortFits(a.port);
    if kind == XOR_MAPPED_ADDRESS then [0, FAMILY_IPV4] + ShortBytes(Xor(a.port, COOKIE_TOP)) + Masked(a.ip)
    else [0, FAMILY_IPV4] + ShortBytes(a.port) + a.ip
  }

  lemma PortFits(port: nat)
    requires port < 0x1_0000
    ensures Xor(port, COOKIE_TOP) < 0x1_0000
  {
    ByteAndShortLimits();
    XorFits(0x1_0000, port, COOKIE_TOP);
  }

  lemma ValueParts(port: nat, ip: seq<byte>)
    requires port < 0x1_0000 && |ip| == 4
    ensures var value := [0, FAMILY_IPV4] + ShortBytes(port) + ip;
            |value| == 8 && IsIPv4(value) && Short(value, 2) == port && value[4..8] == ip
  {
  }

  /** The client gets back the address that the server saw, masked or not. */
  lemma AddressRoundTrip(a: Address, kind: nat)
    requires |a.ip| == 4 && a.port < 0x1_0000
    ensures var value := AddressValue(a, kind);
            |value| == 8 && IsIPv4(value) && AddressIn(Attribute(kind, value)) == a
  {
    if kind == XOR_MAPPED_ADDRESS {
      PortFits(a.port);

      XorTwice(a.port, COOKIE_TOP);
      MaskedTwice(a.ip);
      ValueParts(Xor(a.port, COOKIE_TOP), Masked(a.ip));
    } else {
      ValueParts(a.port, a.ip);
    }
  }

  // ---- what the masking is -----------------------------------------------------------------------

  function Bit(n: nat, i: nat): nat {
    if i == 0 then n % 2 else Bit(n / 2, i - 1)
  }

  /** Exclusive or: each bit of the result says whether the two bits differ. */
  lemma {:induction false} XorBits(a: nat, b: nat, i: nat)
    ensures Bit(Xor(a, b), i) == if Bit(a, i) == Bit(b, i) then 0 else 1
    decreases i
  {
    XorHalves(a, b);
    if i > 0 {
      XorBits(a / 2, b / 2, i - 1);
    }
  }

  lemma XorHalves(a: nat, b: nat)
    ensures Xor(a, b) / 2 == Xor(a / 2, b / 2)
    ensures Xor(a, b) % 2 == if a % 2 == b % 2 then 0 else 1
  {
    XorZero(a, b);
    HalfAndRest(Xor(a / 2, b / 2), if a % 2 == b % 2 then 0 else 1);
  }

  lemma HalfAndRest(half: nat, bit: nat)
    requires bit < 2
    ensures (2 * half + bit) / 2 == half && (2 * half + bit) % 2 == bit
  {
  }

  /** An address is masked byte by byte with the cookie 21 12 A4 42. */
  lemma MaskedIs(ip: seq<byte>)
    requires |ip| == 4
    ensures Masked(ip)[0] as nat == Xor(ip[0] as nat, 0x21) && Masked(ip)[1] as nat == Xor(ip[1] as nat, 0x12)
    ensures Masked(ip)[2] as nat == Xor(ip[2] as nat, 0xA4) && Masked(ip)[3] as nat == Xor(ip[3] as nat, 0x42)
  {
  }

  function KnownHeader(): seq<byte> {
    [0x01, 0x01, 0x00, 0x0C, 0x21, 0x12, 0xA4, 0x42]
  }

  lemma MaskedAttribute(body: seq<byte>, x: seq<byte>)
    requires |x| == 6 && body == [0x00, 0x20, 0x00, 0x08, 0x00, 0x01] + x
    ensures LastFrom(body, 0, 0x20, None)
         == Some(Address(Masked(x[2..]), Xor(x[0] as nat * 256 + x[1] as nat, 0x2112)))
  {
    assert Short(body, 0) == 0x20 && Short(body, 2) == 8;
    var value := body[4..12];
    assert value[2..] == x && value[4..8] == x[2..];
    assert AttributeAt(body, 0) == Attribute(0x20, value) && NextAt(body, 0) == 12;
    LastFromEnd(body, 12, 0x20, Some(AddressIn(Attribute(0x20, value))));
  }

  /** A response byte for byte: type 0101, twelve bytes of attributes, the cookie, the transaction id, and one
      XOR-MAPPED-ADDRESS of the IPv4 family. The port is masked by 2112, the address by the cookie. */
  lemma ResponseByteForByte(data: seq<byte>, txn: seq<byte>, x: seq<byte>)
    requires |txn| == 12 && |x| == 6
    requires data == KnownHeader() + txn + ([0x00, 0x20, 0x00, 0x08, 0x00, 0x01] + x)
    ensures Accepts(data, txn)
    ensures Reflexive(Body(data)) == Some(Address(Masked(x[2..]), Xor(x[0] as nat * 256 + x[1] as nat, 0x2112)))
  {
    var head := KnownHeader() + txn;
    assert data[..20] == head;
    assert data[4..8] == head[4..8] == [0x21, 0x12, 0xA4, 0x42];
    assert data[8..20] == head[8..20] == txn;
    assert Short(data, 0) == 0x0101 && Short(data, 2) == 12;
    assert data[20..32] == [0x00, 0x20, 0x00, 0x08, 0x00, 0x01] + x;
    MaskedAttribute(data[20..32], x);
  }

  lemma PlainAttribute(body: seq<byte>, x: seq<byte>)
    requires |x| == 6 && body == [0x00, 0x01, 0x00, 0x08, 0x00, 0x01] + x
    ensures LastFrom(body, 0, 0x01, None) == Some(Address(x[2..], x[0] as nat * 256 + x[1] as nat))
    ensures LastFrom(body, 0, 0x20, None) == None
  {
    assert Short(body, 0) == 0x01 && Short(body, 2) == 8;
    var value := body[4..12];
    assert value[2..] == x && value[4..8] == x[2..];
    assert AttributeAt(body, 0) == Attribute(0x01, value) && NextAt(body, 0) == 12;
    LastFromEnd(body, 12, 0x01, Some(AddressIn(Attribute(0x01, value))));
    LastFromEnd(body, 12, 0x20, None);
  }

  /** And one MAPPED-ADDRESS, which is read as it stands. */
  lemma PlainResponseByteForByte(data: seq<byte>, txn: seq<byte>, x: seq<byte>)
    requires |txn| == 12 && |x| == 6
    requires data == KnownHeader() + txn + ([0x00, 0x01, 0x00, 0x08, 0x00, 0x01] + x)
    ensures Accepts(data, txn)
    ensures Reflexive(Body(data)) == Some(Address(x[2..], x[0] as nat * 256 + x[1] as nat))
  {
    var head := KnownHeader() + txn;
    assert data[..20] == head;
    assert data[4..8] == head[4..8] == [0x21, 0x12, 0xA4, 0x42];
    assert data[8..20] == head[8..20] == txn;
    assert Short(data, 0) == 0x0101 && Short(data, 2) == 12;
    assert data[20..32] == [0x00, 0x01, 0x00, 0x08, 0x00, 0x01] + x;
    PlainAttribute(data[20..32], x);
  }

  /** The request is the header alone: its type, no attributes, the cookie and the transaction id. */
  lemma RequestIs(txn: seq<byte>)
    requires |txn| == 12
    ensures BindingRequest(txn) == [0x00, 0x01, 0x00, 0x00, 0x21, 0x12, 0xA4, 0x42] + txn
  {
    assert ShortBytes(1) == [0x00, 0x01] && ShortBytes(0) == [0x00, 0x00];
  }

  /** What is taken for a response, byte by byte: type 0101, the cookie, and the transaction id of the
      request. */
  lemma AcceptsIff(data: seq<byte>, txn: seq<byte>)
    ensures Accepts(data, txn) <==>
              && |data| >= 20 && data[0] == 1 && data[1] == 1
              && data[4..8] == [0x21, 0x12, 0xA4, 0x42] && data[8..20] == txn
  {
  }

  /** What stands behind the stated length is ignored. */
  lemma TrailingBytesIgnored(data: seq<byte>, behind: seq<byte>)
    requires |data| >= 20 && |data| == 20 + data[2] as nat * 256 + data[3] as nat
    ensures Body(data + behind) == data[20..] == Body(data)
  {
    assert Short(data + behind, 2) == Short(data, 2);
    assert (data + behind)[20..|data|] == data[20..];
  }

  /** An attribute counts if it is of the kind and holds eight bytes of which the second is the family 1. */
  lemma CarriesIff(a: Attribute, kind: nat)
    ensures Carries(a, kind) <==> a.kind == kind && |a.value| >= 8 && a.value[1] == 1
  {
  }
}
