/** Every trap comes back from the datagram it was written into, and every piece of it is minimal. */
module TrapRoundTrip {
  import opened Common
  import opened Ber
  import opened BerReader

  // Lengths and elements.

  lemma {:induction false} OctetsSpell(n: nat)
    ensures BeValue(Octets(n)) == n
    ensures Octets(n) != [] && (n > 0 ==> Octets(n)[0] != 0)
  {
    if n >= 256 {
      OctetsSpell(n / 256);
      assert Front(Octets(n)) == Octets(n / 256);
    } else {
      assert Front([n as Byte]) == [];
    }
  }

  lemma LengthReads(n: nat, rest: seq<Byte>)
    requires n < TWO_TO_64
    ensures ReadLength(LengthOf(n) + rest) == Some((n, rest))
  {
    var s := LengthOf(n) + rest;
    if n < 128 {
      assert s[1..] == rest;
    } else {
      var o := Octets(n);
      OctetsSpell(n);
      WordIsEightOctets(n);
      assert s[1..1 + |o|] == o;
      assert s[1 + |o|..] == rest;
    }
  }

  /** A length is a single octet below 128, and otherwise carries no leading zero octet. */
  lemma LengthIsMinimal(n: nat)
    requires n < TWO_TO_64
    ensures if n < 128 then LengthOf(n) == [n]
            else |LengthOf(n)| >= 2 && LengthOf(n)[0] == 128 + |LengthOf(n)[1..]| && LengthOf(n)[1] != 0
                 && BeValue(LengthOf(n)[1..]) == n
  {
    if n >= 128 {
      OctetsSpell(n);
      assert LengthOf(n)[1..] == Octets(n);
    }
  }

  lemma ElementReads(tag: Byte, body: seq<Byte>, rest: seq<Byte>)
    requires |body| < TWO_TO_64
    ensures ReadElement(Tlv(tag, body) + rest) == Some(Element(tag, body, rest))
  {
    var s := Tlv(tag, body) + rest;
    assert s[1..] == LengthOf(|body|) + (body + rest);
    LengthReads(|body|, body + rest);
    assert (body + rest)[..|body|] == body && (body + rest)[|body|..] == rest;
  }

  // Integers.

  lemma {:induction false} SignedSpells(v: int)
    ensures Signed(v) != [] && SignedValue(Signed(v)) == v
    decreases if v < 0 then -v else v
  {
    if !(-128 <= v < 128) {
      SignedSpells(v / 256);
      assert Front(Signed(v)) == Signed(v / 256);
    }
  }

  /** No sign octet could be dropped. */
  lemma {:induction false} SignedIsMinimal(v: int)
    ensures !Redundant(Signed(v))
    ensures v >= 0 ==> Signed(v)[0] < 128
    decreases if v < 0 then -v else v
  {
    SignedSpells(v);
    if !(-128 <= v < 128) {
      SignedIsMinimal(v / 256);
      SignedSpells(v / 256);
      if -128 <= v / 256 < 128 {
        assert Signed(v) == [(v / 256) % 256, v % 256];
      } else {
        assert |Signed(v / 256)| >= 2;
      }
    }
  }

  /** A counter or tick count is capped at 32 bits, and never reads as negative. */
  lemma UnsignedReads(v: nat)
    ensures ReadUnsigned(Signed(Saturated(v))) == Some(Capped(v))
    ensures Signed(Saturated(v))[0] < 128
  {
    SignedSpells(Saturated(v));
    SignedIsMinimal(Saturated(v));
  }

  lemma IntReads(v: int, rest: seq<Byte>)
    requires |Signed(v)| < TWO_TO_64
    ensures ReadInt(Tlv(INTEGER, Signed(v)) + rest) == Some((v, rest))
  {
    ElementReads(INTEGER, Signed(v), rest);
    SignedSpells(v);
  }

  // Object identifiers.

  lemma {:induction false} ContinuedReads(v: nat, t: seq<Byte>)
    ensures ReadArc(Continued(v) + t, 0) == ReadArc(t, v)
  {
    if v == 0 {
      assert Continued(v) + t == t;
    } else {
      var x: Byte := 128 + v % 128;
      ContinuedReads(v / 128, [x] + t);
      assert Continued(v) + t == Continued(v / 128) + ([x] + t);
      assert ([x] + t)[1..] == t;
    }
  }

  lemma ArcReads(v: nat, rest: seq<Byte>)
    ensures ReadArc(Base128Of(v) + rest, 0) == Some((v, rest))
  {
    var x: Byte := v % 128;
    ContinuedReads(v / 128, [x] + rest);
    assert Base128Of(v) + rest == Continued(v / 128) + ([x] + rest);
    assert ([x] + rest)[1..] == rest;
  }

  /** A subidentifier never opens with an empty septet. */
  lemma {:induction false} ContinuedIsMinimal(v: nat)
    ensures v > 0 ==> Continued(v) != [] && Continued(v)[0] != 128
  {
    if v >= 128 {
      ContinuedIsMinimal(v / 128);
    } else if v > 0 {
      assert Continued(v / 128) == [];
    }
  }

  lemma Base128IsMinimal(v: nat)
    ensures Base128Of(v)[0] != 128 && Last(Base128Of(v)) < 128
    ensures forall i :: 0 <= i < |Base128Of(v)| - 1 ==> Base128Of(v)[i] >= 128
  {
    ContinuedIsMinimal(v / 128);
    ContinuedIsHigh(v / 128);
  }

  lemma {:induction false} ContinuedIsHigh(v: nat)
    ensures forall i :: 0 <= i < |Continued(v)| ==> Continued(v)[i] >= 128
  {
    if v > 0 {
      ContinuedIsHigh(v / 128);
    }
  }

  lemma ArcsSnoc(arcs: seq<nat>, a: nat)
    ensures ArcsOf(arcs + [a]) == ArcsOf(arcs) + Base128Of(a)
  {
    assert Front(arcs + [a]) == arcs;
  }

  lemma {:induction false} ArcsConcat(a: nat, arcs: seq<nat>)
    ensures ArcsOf([a] + arcs) == Base128Of(a) + ArcsOf(arcs)
  {
    if arcs == [] {
      assert Front([a]) == [] && [a] + arcs == [a];
    } else {
      var p, l := Front(arcs), Last(arcs);
      ArcsConcat(a, p);
      ConsSnoc(a, arcs);
      ArcsSnoc([a] + p, l);
      ArcsSnoc(p, l);
      Regroup(Base128Of(a), ArcsOf(p), Base128Of(l));
    }
  }

  lemma {:induction false} ArcsRead(arcs: seq<nat>)
    ensures ReadArcs(ArcsOf(arcs)) == Some(arcs)
  {
    if arcs != [] {
      var a, rest := arcs[0], arcs[1..];
      assert arcs == [a] + rest;
      ArcsConcat(a, rest);
      ArcReads(a, ArcsOf(rest));
      ArcsRead(rest);
    }
  }

  /** The arcs an identifier must have to be one: two, the first at most 2, the second fitting beside it. */
  predicate WellFormed(arcs: seq<nat>) {
    && |arcs| >= 2
    && arcs[0] <= 2
    && (arcs[0] < 2 ==> arcs[1] < 40)
    && arcs[0] * 40 + arcs[1] < 0x1_0000_0000_0000_0000
  }

  /** What an identifier's octets read as, whatever arcs it was given. */
  lemma OidReads(arcs: seq<nat>)
    ensures ReadOid(OidBody(arcs)) == Some(Unpacked(Packed(arcs)) + RestArcs(arcs))
  {
    ArcsConcat(Packed(arcs), RestArcs(arcs));
    ArcsRead([Packed(arcs)] + RestArcs(arcs));
  }

  lemma WellFormedUnpacks(arcs: seq<nat>)
    requires |arcs| >= 2
    ensures Unpacked(Packed(arcs)) == arcs[..2] <==> WellFormed(arcs)
  {
    assert arcs[..2] == [arcs[0], arcs[1]];
    var u := Unpacked(Packed(arcs));
    assert u == [u[0], u[1]];
  }

  /** An identifier comes back exactly when it was a well-formed one. */
  lemma OidRoundTripExactly(arcs: seq<nat>)
    ensures ReadOid(OidBody(arcs)) == Some(arcs) <==> WellFormed(arcs)
  {
    OidReads(arcs);
    if |arcs| >= 2 {
      WellFormedUnpacks(arcs);
      SplitTwo(Unpacked(Packed(arcs)), arcs);
    }
  }

  lemma SplitTwo(u: seq<nat>, arcs: seq<nat>)
    requires |u| == 2 && |arcs| >= 2
    ensures u + arcs[2..] == arcs <==> u == arcs[..2]
  {
    assert (u + arcs[2..])[..2] == u;
    assert arcs[..2] + arcs[2..] == arcs;
  }

  // Bindings.

  /** What a value is on the far side: counters and ticks capped at 32 bits. */
  /** The largest number a 32-bit count can carry, or the number itself. */
  function Capped(n: nat): nat {
    if n < 0x1_0000_0000 then n else 0xFFFF_FFFF
  }

  function Received(v: Value): Value {
    match v
    case Count(n) => Count(Capped(n))
    case Ticks(n) => Ticks(Capped(n))
    case _ => v
  }

  function ReceivedBinding(b: Binding): Binding {
    Binding(b.name, Received(b.value))
  }

  predicate WellNamed(b: Binding) {
    WellFormed(b.name) && (b.value.Oid? ==> WellFormed(b.value.arcs))
  }

  lemma ValueReads(v: Value)
    requires v.Oid? ==> WellFormed(v.arcs)
    requires |ValueOf(v)| < TWO_TO_64
    ensures var e := ReadElement(ValueOf(v));
            e.Some? && e.value.rest == [] && ReadValue(e.value.tag, e.value.body) == Some(Received(v))
  {
    var tag, body := ValueParts(v);
    ElementReads(tag, body, []);
    assert ValueOf(v) + [] == ValueOf(v);
    match v {
      case Str(_) =>
      case Count(n) => UnsignedReads(n);
      case Ticks(n) => UnsignedReads(n);
      case Oid(arcs) => OidRoundTripExactly(arcs);
    }
  }

  lemma ValueParts(v: Value) returns (tag: Byte, body: seq<Byte>)
    ensures ValueOf(v) == Tlv(tag, body) && |body| < |ValueOf(v)|
    ensures match v
            case Str(text) => tag == OCTET_STRING && body == text
            case Count(n) => tag == COUNTER32 && body == Signed(Saturated(n))
            case Ticks(n) => tag == TIME_TICKS && body == Signed(Saturated(n))
            case Oid(arcs) => tag == OBJECT_ID && body == OidBody(arcs)
  {
    match v {
      case Str(text) => tag, body := OCTET_STRING, text;
      case Count(n) => tag, body := COUNTER32, Signed(Saturated(n));
      case Ticks(n) => tag, body := TIME_TICKS, Signed(Saturated(n));
      case Oid(arcs) => tag, body := OBJECT_ID, OidBody(arcs);
    }
  }

  lemma BindingReads(b: Binding)
    requires WellNamed(b) && |BindingBody(b)| < TWO_TO_64
    ensures ReadBinding(BindingBody(b)) == Some(ReceivedBinding(b))
  {
    ElementReads(OBJECT_ID, OidBody(b.name), ValueOf(b.value));
    OidRoundTripExactly(b.name);
    ValueReads(b.value);
  }

  function ReceivedAll(bs: seq<Binding>): (r: seq<Binding>)
    ensures |r| == |bs| && forall i :: 0 <= i < |bs| ==> r[i] == ReceivedBinding(bs[i])
  {
    seq(|bs|, i requires 0 <= i < |bs| => ReceivedBinding(bs[i]))
  }

  lemma {:induction false} BindingsConcat(b: Binding, bs: seq<Binding>)
    ensures BindingsOf([b] + bs) == BindingOf(b) + BindingsOf(bs)
  {
    if bs == [] {
      assert Front([b]) == [] && [b] + bs == [b];
    } else {
      var p, l := Front(bs), Last(bs);
      BindingsConcat(b, p);
      BindingsSnoc([b] + p, l);
      BindingsSnoc(p, l);
      ConsSnoc(b, bs);
      Regroup(BindingOf(b), BindingsOf(p), BindingOf(l));
    }
  }

  lemma FirstBindingReads(b: Binding, rest: seq<Byte>)
    requires WellNamed(b) && |BindingOf(b)| < TWO_TO_64
    ensures var e := Expect(BindingOf(b) + rest, SEQUENCE);
            e.Some? && e.value.rest == rest && ReadBinding(e.value.body) == Some(ReceivedBinding(b))
    ensures |BindingOf(b)| > 0
  {
    ElementReads(SEQUENCE, BindingBody(b), rest);
    BindingReads(b);
  }

  lemma {:induction false} BindingsRead(bs: seq<Binding>)
    requires |BindingsOf(bs)| < TWO_TO_64
    requires forall i :: 0 <= i < |bs| ==> WellNamed(bs[i])
    ensures ReadBindings(BindingsOf(bs)) == Some(ReceivedAll(bs))
  {
    if bs != [] {
      var b, rest := bs[0], bs[1..];
      BindingsConcat(b, rest);
      HeadAndRest(bs);
      BindingsRead(rest);
      OneBindingMore(b, rest);
      ReceivedCons(b, rest);
    }
  }

  lemma HeadAndRest(bs: seq<Binding>)
    requires bs != []
    ensures bs == [bs[0]] + bs[1..]
  {
  }

  lemma ReceivedCons(b: Binding, rest: seq<Binding>)
    ensures ReceivedAll([b] + rest) == [ReceivedBinding(b)] + ReceivedAll(rest)
  {
  }

  lemma OneBindingMore(b: Binding, rest: seq<Binding>)
    requires WellNamed(b) && |BindingOf(b) + BindingsOf(rest)| < TWO_TO_64
    requires ReadBindings(BindingsOf(rest)) == Some(ReceivedAll(rest))
    ensures ReadBindings(BindingOf(b) + BindingsOf(rest)) == Some([ReceivedBinding(b)] + ReceivedAll(rest))
  {
    FirstBindingReads(b, BindingsOf(rest));
    ReadOneMore(BindingOf(b) + BindingsOf(rest), ReceivedBinding(b), BindingsOf(rest), ReceivedAll(rest));
  }

  lemma ReadOneMore(s: seq<Byte>, first: Binding, tail: seq<Byte>, rest: seq<Binding>)
    requires s != [] && |tail| < |s|
    requires var e := Expect(s, SEQUENCE);
             e.Some? && e.value.rest == tail && ReadBinding(e.value.body) == Some(first)
    requires ReadBindings(tail) == Some(rest)
    ensures ReadBindings(s) == Some([first] + rest)
  {
  }

  // The whole datagram.

  lemma PduFromParts(id: seq<Byte>, status: seq<Byte>, index: seq<Byte>, list: seq<Byte>, p: Pdu, body: seq<Byte>)
    requires ReadInt(id + (status + (index + list))) == Some((p.requestId, status + (index + list)))
    requires ReadInt(status + (index + list)) == Some((p.errorStatus, index + list))
    requires ReadInt(index + list) == Some((p.errorIndex, list))
    requires Expect(list, SEQUENCE) == Some(Element(SEQUENCE, body, [])) && ReadBindings(body) == Some(p.bindings)
    ensures ReadPdu(id + status + index + list) == Some(p)
  {
    Regroup(id + status, index, list);
    Regroup(id, status, index + list);
  }

  lemma PduReads(id: nat, list: seq<Byte>, bs: seq<Binding>)
    requires |Signed(id)| < TWO_TO_64 && |list| < TWO_TO_64
    requires ReadBindings(list) == Some(bs)
    ensures ReadPdu(Tlv(INTEGER, Signed(id)) + Tlv(INTEGER, Signed(0)) + Tlv(INTEGER, Signed(0)) + Tlv(SEQUENCE, list))
         == Some(Pdu(id, 0, 0, bs))
  {
    var i, z, l := Tlv(INTEGER, Signed(id)), Tlv(INTEGER, Signed(0)), Tlv(SEQUENCE, list);
    IntReads(id, z + (z + l));
    IntReads(0, z + l);
    IntReads(0, l);
    WholeElementReads(SEQUENCE, list);
    PduFromParts(i, z, z, l, Pdu(id, 0, 0, bs), list);
  }

  /** An element with nothing after it. */
  lemma WholeElementReads(tag: Byte, body: seq<Byte>)
    requires |body| < TWO_TO_64
    ensures Expect(Tlv(tag, body), tag) == Some(Element(tag, body, []))
  {
    ElementReads(tag, body, []);
    assert Tlv(tag, body) + [] == Tlv(tag, body);
  }

  lemma EnvelopeFromParts(outer: seq<Byte>, version: seq<Byte>, name: seq<Byte>, body: seq<Byte>,
                          community: seq<Byte>, pdu: seq<Byte>, p: Pdu)
    requires Expect(outer, SEQUENCE) == Some(Element(SEQUENCE, version + name + body, []))
    requires ReadInt(version + (name + body)) == Some((1, name + body))
    requires Expect(name + body, OCTET_STRING) == Some(Element(OCTET_STRING, community, body))
    requires Expect(body, TRAP_PDU) == Some(Element(TRAP_PDU, pdu, []))
    requires ReadPdu(pdu) == Some(p)
    ensures ReadMessage(outer) == Some(Message(1, community, p.requestId, p.errorStatus, p.errorIndex, p.bindings))
  {
    Regroup(version, name, body);
  }

  lemma EnvelopeReads(community: seq<Byte>, pdu: seq<Byte>, p: Pdu)
    requires ReadPdu(pdu) == Some(p)
    requires |Tlv(INTEGER, Signed(1)) + Tlv(OCTET_STRING, community) + Tlv(TRAP_PDU, pdu)| < TWO_TO_64
    ensures ReadMessage(Tlv(SEQUENCE, Tlv(INTEGER, Signed(1)) + Tlv(OCTET_STRING, community) + Tlv(TRAP_PDU, pdu)))
         == Some(Message(1, community, p.requestId, p.errorStatus, p.errorIndex, p.bindings))
  {
    var v, c, d := Tlv(INTEGER, Signed(1)), Tlv(OCTET_STRING, community), Tlv(TRAP_PDU, pdu);
    WholeElementReads(SEQUENCE, v + c + d);
    IntReads(1, c + d);
    ElementReads(OCTET_STRING, community, d);
    WholeElementReads(TRAP_PDU, pdu);
    EnvelopeFromParts(Tlv(SEQUENCE, v + c + d), v, c, d, community, pdu, p);
  }

  lemma OpeningIsWellNamed(t: Trap)
    ensures WellNamed(Binding(SYS_UPTIME, Ticks(t.uptimeTicks))) && WellNamed(Binding(TRAP_OID, Oid(t.Name())))
  {
  }

  lemma {:induction false} SignedWithin(v: nat)
    requires v < TWO_TO_32
    ensures |Signed(v)| <= 5
  {
    assert |Signed(v / 0x1_0000_0000)| == 1;
    assert |Signed(v / 0x100_0000)| <= 2;
    assert v / 0x1_0000 / 256 == v / 0x100_0000;
    assert |Signed(v / 0x1_0000)| <= 3;
    assert v / 256 / 256 == v / 0x1_0000;
    assert |Signed(v / 256)| <= 4;
  }

  lemma PduOfBindingsReads(id: nat, bs: seq<Binding>)
    requires id < TWO_TO_32 && |BindingsOf(bs)| < TWO_TO_64
    requires forall i :: 0 <= i < |bs| ==> WellNamed(bs[i])
    ensures ReadPdu(PduOf(id, bs)) == Some(Pdu(id, 0, 0, ReceivedAll(bs)))
  {
    BindingsRead(bs);
    SignedWithin(id);
    PduReads(id, BindingsOf(bs), ReceivedAll(bs));
  }

  lemma AllAreWellNamed(t: Trap)
    requires forall i :: 0 <= i < |t.bindings| ==> WellNamed(t.bindings[i])
    ensures forall i :: 0 <= i < |AllBindings(t)| ==> WellNamed(AllBindings(t)[i])
  {
    var all := AllBindings(t);
    OpeningIsWellNamed(t);
    forall i | 0 <= i < |all|
      ensures WellNamed(all[i])
    {
      if i >= 2 {
        assert all[i] == t.bindings[i - 2];
      }
    }
  }

  /** What a receiver should find: the two mandatory bindings first, then the trap's own in order. */
  function Expected(community: seq<Byte>, t: Trap): Message {
    Message(1, community, t.uptimeTicks % 0x8000_0000, 0, 0,
            [Binding(UPTIME_NAME, Ticks(Capped(t.uptimeTicks))), Binding(WHICH_NAME, Oid(OWN_NAME + [t.which]))]
            + ReceivedAll(t.bindings))
  }

  lemma ReceivedOpening(t: Trap)
    ensures ReceivedAll(AllBindings(t))
         == [Binding(UPTIME_NAME, Ticks(Capped(t.uptimeTicks))), Binding(WHICH_NAME, Oid(OWN_NAME + [t.which]))]
            + ReceivedAll(t.bindings)
  {
  }

  /**
   The whole trap comes back: version 1, the community, the uptime's low 31 bits as
   request-id, sysUpTime.0 then snmpTrapOID.0, then every binding in order, each as
   written up to the 32-bit cap, with the datagram used up to its last octet.
   */
  lemma TrapComesBack(community: seq<Byte>, t: Trap)
    requires |Datagram(community, t)| < 0x1_0000_0000_0000_0000
    requires forall i :: 0 <= i < |t.bindings| ==> WellNamed(t.bindings[i])
    ensures ReadMessage(Datagram(community, t)) == Some(Expected(community, t))
  {
    AllAreWellNamed(t);
    PduOfBindingsReads(RequestId(t), AllBindings(t));
    EnvelopeReads(community, PduBody(t), Pdu(RequestId(t), 0, 0, ReceivedAll(AllBindings(t))));
    ReceivedOpening(t);
  }
}
