/** src/snmp.rs: building an SNMPv2c trap, octet by octet. */
module Ber {
  import opened Common

  const TWO_TO_31: nat := 0x8000_0000
  const TWO_TO_32: nat := 0x1_0000_0000
  const TWO_TO_63: nat := 0x8000_0000_0000_0000
  const TWO_TO_64: nat := 0x1_0000_0000_0000_0000

  type I64 = v: int | -0x8000_0000_0000_0000 <= v < 0x8000_0000_0000_0000

  const INTEGER: Byte := 0x02
  const OCTET_STRING: Byte := 0x04
  const OBJECT_ID: Byte := 0x06
  const SEQUENCE: Byte := 0x30
  const COUNTER32: Byte := 0x41
  const TIME_TICKS: Byte := 0x43
  const TRAP_PDU: Byte := 0xA7

  const ENTERPRISE: seq<nat> := [1, 3, 6, 1, 4, 1, 99_999]
  const SYS_UPTIME: seq<nat> := [1, 3, 6, 1, 2, 1, 1, 3, 0]
  const TRAP_OID: seq<nat> := [1, 3, 6, 1, 6, 3, 1, 1, 4, 1, 0]

  datatype Value =
    | Str(text: seq<Byte>)
    | Count(n: nat)
    | Oid(arcs: seq<nat>)
    | Ticks(n: nat)

  datatype Binding = Binding(name: seq<nat>, value: Value)

  datatype Trap = Trap(uptimeTicks: nat, which: nat, bindings: seq<Binding>) {
    function Name(): seq<nat> {
      ENTERPRISE + [which]
    }
  }

  function Field(n: nat): seq<nat> {
    ENTERPRISE + [1, n]
  }

  // What the octets should be.

  /** `to_be_bytes`: the low `width` octets, most significant first, negatives in two's complement. */
  function ToBe(v: int, width: nat): (s: seq<Byte>)
    ensures |s| == width
    decreases width
  {
    if width == 0 then [] else ToBe(v / 256, width - 1) + [v % 256]
  }

  /** The fewest octets that spell `n`. */
  function Octets(n: nat): seq<Byte> {
    if n < 256 then [n] else Octets(n / 256) + [n % 256]
  }

  /** The fewest octets that spell `v` in two's complement. */
  function Signed(v: int): seq<Byte>
    decreases if v < 0 then -v else v
  {
    if -128 <= v < 128 then [v % 256] else Signed(v / 256) + [v % 256]
  }

  /** What a run of octets means in two's complement. */
  function SignedValue(s: seq<Byte>): int {
    if s == [] then 0
    else if |s| == 1 then SignOf(s[0])
    else SignedValue(Front(s)) * 256 + Last(s)
  }

  function SignOf(b: Byte): int {
    var v: int := b;
    if v >= 128 then v - 256 else v
  }

  /** The leading octet says nothing the next one does not. */
  predicate Redundant(s: seq<Byte>) {
    |s| >= 2 && ((s[0] == 0 && s[1] < 128) || (s[0] == 255 && s[1] >= 128))
  }

  function LengthOf(n: nat): seq<Byte> {
    if n < 128 then [n]
    else
      var s := Octets(n % TWO_TO_64);
      WordIsEightOctets(n % TWO_TO_64);
      [128 + |s|] + s
  }

  function Tlv(tag: Byte, body: seq<Byte>): seq<Byte> {
    [tag] + LengthOf(|body|) + body
  }

  function Saturated(v: nat): nat {
    Min(v, TWO_TO_32 - 1)
  }

  /** Septets with the high bit set. */
  function Continued(v: nat): seq<Byte> {
    if v == 0 then [] else Continued(v / 128) + [128 + v % 128]
  }

  function Base128Of(v: nat): seq<Byte> {
    Continued(v / 128) + [v % 128]
  }

  function ArcsOf(arcs: seq<nat>): seq<Byte> {
    if arcs == [] then [] else ArcsOf(Front(arcs)) + Base128Of(Last(arcs))
  }

  function FirstArc(arcs: seq<nat>): nat {
    if arcs == [] then 0 else arcs[0]
  }

  function SecondArc(arcs: seq<nat>): nat {
    if |arcs| < 2 then 0 else arcs[1]
  }

  function RestArcs(arcs: seq<nat>): seq<nat> {
    if |arcs| < 2 then [] else arcs[2..]
  }

  /** The first two arcs packed into one, in the machine's 64-bit arithmetic. */
  function Packed(arcs: seq<nat>): nat {
    (FirstArc(arcs) * 40 + SecondArc(arcs)) % TWO_TO_64
  }

  function OidBody(arcs: seq<nat>): seq<Byte> {
    Base128Of(Packed(arcs)) + ArcsOf(RestArcs(arcs))
  }

  function ValueOf(v: Value): seq<Byte> {
    match v
    case Str(text) => Tlv(OCTET_STRING, text)
    case Count(n) => Tlv(COUNTER32, Signed(Saturated(n)))
    case Oid(arcs) => Tlv(OBJECT_ID, OidBody(arcs))
    case Ticks(n) => Tlv(TIME_TICKS, Signed(Saturated(n)))
  }

  function BindingBody(b: Binding): seq<Byte> {
    Tlv(OBJECT_ID, OidBody(b.name)) + ValueOf(b.value)
  }

  function BindingOf(b: Binding): seq<Byte> {
    Tlv(SEQUENCE, BindingBody(b))
  }

  function BindingsOf(bs: seq<Binding>): seq<Byte> {
    if bs == [] then [] else BindingsOf(Front(bs)) + BindingOf(Last(bs))
  }

  /** The two bindings every v2c trap opens with, then the trap's own. */
  function AllBindings(t: Trap): seq<Binding> {
    [Binding(SYS_UPTIME, Ticks(t.uptimeTicks)), Binding(TRAP_OID, Oid(t.Name()))] + t.bindings
  }

  function RequestId(t: Trap): nat {
    t.uptimeTicks % TWO_TO_31
  }

  function PduOf(requestId: nat, bindings: seq<Binding>): seq<Byte> {
    Tlv(INTEGER, Signed(requestId)) + Tlv(INTEGER, Signed(0)) + Tlv(INTEGER, Signed(0))
    + Tlv(SEQUENCE, BindingsOf(bindings))
  }

  function PduBody(t: Trap): seq<Byte> {
    PduOf(RequestId(t), AllBindings(t))
  }

  function MessageBody(community: seq<Byte>, t: Trap): seq<Byte> {
    Tlv(INTEGER, Signed(1)) + Tlv(OCTET_STRING, community) + Tlv(TRAP_PDU, PduBody(t))
  }

  function Datagram(community: seq<Byte>, t: Trap): seq<Byte> {
    Tlv(SEQUENCE, MessageBody(community, t))
  }

  // Facts about the pieces.

  lemma WordIsEightOctets(n: nat)
    requires n < TWO_TO_64
    ensures |Octets(n)| <= 8
  {
    assert TWO_TO_64 == Power(8) by {
      PowersOf256();
    }
    OctetsWithin(n, 8);
  }

  function Power(w: nat): nat {
    if w == 0 then 1 else 256 * Power(w - 1)
  }

  lemma PowersOf256()
    ensures Power(4) == TWO_TO_32 && Power(8) == TWO_TO_64
  {
    assert Power(1) == 256 && Power(2) == 0x1_0000 && Power(3) == 0x100_0000;
    assert Power(5) == 256 * Power(4) && Power(6) == 256 * Power(5) && Power(7) == 256 * Power(6);
  }

  lemma {:induction false} OctetsWithin(n: nat, w: nat)
    requires n < Power(w) && w > 0
    ensures |Octets(n)| <= w
  {
    if n >= 256 {
      assert w > 1;
      OctetsWithin(n / 256, w - 1);
    }
  }

  lemma {:induction false} ToBeSpells(n: nat, w: nat)
    requires n < Power(w)
    ensures BeValue(ToBe(n, w)) == n
  {
    if w > 0 {
      ToBeSpells(n / 256, w - 1);
      assert Front(ToBe(n, w)) == ToBe(n / 256, w - 1);
    }
  }

  function Half(w: nat): int {
    if w <= 1 then 128 else 256 * Half(w - 1)
  }

  lemma HalfOfWord()
    ensures Half(8) == TWO_TO_63
  {
    assert Half(2) == 0x8000 && Half(3) == 0x80_0000 && Half(4) == 0x8000_0000;
    assert Half(5) == 256 * Half(4) && Half(6) == 256 * Half(5) && Half(7) == 256 * Half(6);
  }

  lemma {:induction false} ToBeSpellsSigned(v: int, w: nat)
    requires w > 0 && -Half(w) <= v < Half(w)
    ensures SignedValue(ToBe(v, w)) == v
    decreases w
  {
    if w == 1 {
      assert ToBe(v, 1) == [v % 256];
    } else {
      ToBeSpellsSigned(v / 256, w - 1);
      assert Front(ToBe(v, w)) == ToBe(v / 256, w - 1);
    }
  }

  /** A minimal spelling is the only one: no leading zero octet. */
  lemma {:induction false} OctetsAreUnique(s: seq<Byte>)
    requires s != [] && (|s| == 1 || s[0] != 0)
    ensures s == Octets(BeValue(s))
    ensures |s| > 1 ==> BeValue(s) >= 256
  {
    if |s| > 1 {
      OctetsAreUnique(Front(s));
      assert s == Front(s) + [Last(s)];
      if |s| == 2 {
        assert BeValue(Front(s)) == s[0] by { assert Front(Front(s)) == []; }
      }
    } else {
      assert Front(s) == [];
    }
  }

  lemma {:induction false} LeadingZero(s: seq<Byte>)
    requires s != [] && s[0] == 0
    ensures BeValue(s[1..]) == BeValue(s)
  {
    if |s| > 1 {
      LeadingZero(Front(s));
      assert Front(s)[1..] == Front(s[1..]);
    } else {
      assert Front(s) == [] && s[1..] == [];
    }
  }

  /** A machine word spelt in all its octets is worth itself. */
  lemma WordSpells(n: nat, w: nat)
    requires (w == 4 && n < TWO_TO_32) || (w == 8 && n < TWO_TO_64)
    ensures BeValue(ToBe(n, w)) == n && ToBe(n, w)[0..] == ToBe(n, w)
  {
    PowersOf256();
    ToBeSpells(n, w);
  }

  lemma ZeroDropped(be: seq<Byte>, first: nat)
    requires first < |be| && be[first] == 0
    ensures BeValue(be[first + 1..]) == BeValue(be[first..])
  {
    LeadingZero(be[first..]);
    assert be[first..][1..] == be[first + 1..];
  }

  lemma StrippedIsMinimal(be: seq<Byte>, first: nat)
    requires first < |be| && (first == |be| - 1 || be[first] != 0)
    ensures be[first..] == Octets(BeValue(be[first..]))
  {
    OctetsAreUnique(be[first..]);
  }

  lemma TwoSignedOctets(s: seq<Byte>)
    requires |s| == 2 && !Redundant(s)
    ensures SignedValue(s) == SignOf(s[0]) * 256 + s[1]
    ensures !(-128 <= SignedValue(s) < 128)
  {
    assert Front(s) == [s[0]];
  }

  /** A minimal two's complement spelling is the only one: no redundant sign octet. */
  lemma {:induction false} SignedIsUnique(s: seq<Byte>)
    requires s != [] && !Redundant(s)
    ensures s == Signed(SignedValue(s))
    ensures |s| > 1 ==> !(-128 <= SignedValue(s) < 128)
  {
    if |s| > 1 {
      assert s == Front(s) + [Last(s)];
      SignedIsUnique(Front(s));
      OneOctetMore(Front(s), Last(s));
    }
  }

  lemma OneOctetMore(p: seq<Byte>, x: Byte)
    requires p != [] && !Redundant(p + [x]) && p == Signed(SignedValue(p))
    requires |p| > 1 ==> !(-128 <= SignedValue(p) < 128)
    ensures p + [x] == Signed(SignedValue(p + [x])) && !(-128 <= SignedValue(p + [x]) < 128)
  {
    if |p| == 1 {
      TwoSignedOctets(p + [x]);
    } else {
      SignedGrows(p, x);
    }
    SignedSnoc(p, x);
  }

  lemma SignedGrows(p: seq<Byte>, x: Byte)
    requires p != [] && !(-128 <= SignedValue(p) < 128)
    ensures !(-128 <= SignedValue(p + [x]) < 128)
  {
    assert Front(p + [x]) == p;
  }

  lemma SignedSnoc(p: seq<Byte>, x: Byte)
    requires p != [] && !(-128 <= SignedValue(p + [x]) < 128)
    ensures SignedValue(p + [x]) == SignedValue(p) * 256 + x
    ensures Signed(SignedValue(p + [x])) == Signed(SignedValue(p)) + [x]
  {
    assert Front(p + [x]) == p;
    var v := SignedValue(p) * 256 + x;
    assert v / 256 == SignedValue(p) && v % 256 == x;
  }

  lemma {:induction false} DropSign(s: seq<Byte>)
    requires Redundant(s)
    ensures SignedValue(s[1..]) == SignedValue(s)
  {
    if |s| > 2 {
      DropSign(Front(s));
      assert Front(s)[1..] == Front(s[1..]);
    }
  }

  lemma {:induction false} PositiveIsPlain(s: seq<Byte>)
    requires s != [] && s[0] < 128
    ensures SignedValue(s) == BeValue(s)
  {
    if |s| == 1 {
      assert Front(s) == [];
    } else {
      PositiveIsPlain(Front(s));
    }
  }

  // The encoder.

  method Length(n: nat) returns (out: seq<Byte>)
    ensures out == LengthOf(n)
  {
    if n < 128 {
      return [n];
    }
    var be := ToBe(n % TWO_TO_64, 8);
    WordSpells(n % TWO_TO_64, 8);
    var first := 0;
    while first < 7 && be[first] == 0
      invariant first <= 7
      invariant BeValue(be[first..]) == n % TWO_TO_64
    {
      ZeroDropped(be, first);
      first := first + 1;
    }
    StrippedIsMinimal(be, first);
    var bytes := be[first..];
    out := [128 + |bytes|] + bytes;
  }

  method MakeTlv(tag: Byte, body: seq<Byte>) returns (out: seq<Byte>)
    ensures out == Tlv(tag, body)
  {
    out := [tag];
    var length := Length(|body|);
    out := out + length;
    out := out + body;
  }

  method Integer(v: I64) returns (out: seq<Byte>)
    ensures out == Tlv(INTEGER, Signed(v))
  {
    var be := ToBe(v, 8);
    HalfOfWord();
    ToBeSpellsSigned(v, 8);
    var at := 0;
    while at < 7 && ((be[at] == 0 && be[at + 1] < 128) || (be[at] == 255 && be[at + 1] >= 128))
      invariant at <= 7
      invariant SignedValue(be[at..]) == v
    {
      DropSign(be[at..]);
      assert be[at..][1..] == be[at + 1..];
      at := at + 1;
    }
    SignedIsUnique(be[at..]);
    out := MakeTlv(INTEGER, be[at..]);
  }

  /** A zero octet ahead of a high bit keeps the number from reading as negative. */
  lemma UnsignedBody(s: seq<Byte>, body: seq<Byte>)
    requires s != [] && (|s| == 1 || s[0] != 0)
    requires body == if s[0] >= 128 then [0] + s else s
    ensures body == Signed(BeValue(s))
  {
    PositiveIsPlain(body);
    if s[0] >= 128 {
      LeadingZero(body);
      assert body[1..] == s;
    }
    SignedIsUnique(body);
  }

  method Unsigned(tag: Byte, v: nat) returns (out: seq<Byte>)
    ensures out == Tlv(tag, Signed(Saturated(v)))
  {
    var word := Saturated(v);
    var be := ToBe(word, 4);
    WordSpells(word, 4);
    var first := 0;
    while first < 3 && be[first] == 0
      invariant first <= 3
      invariant BeValue(be[first..]) == word
    {
      ZeroDropped(be, first);
      first := first + 1;
    }
    var body: seq<Byte> := [];
    if be[first] >= 128 {
      body := body + [0];
    }
    body := body + be[first..];
    UnsignedBody(be[first..], body);
    out := MakeTlv(tag, body);
  }

  method Base128(v: nat) returns (out: seq<Byte>)
    ensures out == Base128Of(v)
  {
    out := [v % 128];
    var left: nat := v / 128;
    while left > 0
      invariant Base128Of(v) == Continued(left) + out
    {
      out := [128 + left % 128] + out;
      left := left / 128;
    }
  }

  method MakeOid(arcs: seq<nat>) returns (out: seq<Byte>)
    ensures out == Tlv(OBJECT_ID, OidBody(arcs))
  {
    var body := Base128((FirstArc(arcs) * 40 + SecondArc(arcs)) % TWO_TO_64);
    var rest := RestArcs(arcs);
    for i := 0 to |rest|
      invariant body == Base128Of(Packed(arcs)) + ArcsOf(rest[..i])
    {
      var more := Base128(rest[i]);
      body := body + more;
      assert Front(rest[..i + 1]) == rest[..i];
    }
    assert rest[..|rest|] == rest;
    out := MakeTlv(OBJECT_ID, body);
  }

  method Varbind(b: Binding) returns (out: seq<Byte>)
    ensures out == BindingOf(b)
  {
    var body := MakeOid(b.name);
    var value: seq<Byte>;
    match b.value {
      case Str(text) => value := MakeTlv(OCTET_STRING, text);
      case Count(n) => value := Unsigned(COUNTER32, n);
      case Ticks(n) => value := Unsigned(TIME_TICKS, n);
      case Oid(arcs) => value := MakeOid(arcs);
    }
    body := body + value;
    out := MakeTlv(SEQUENCE, body);
  }

  /** The two mandatory bindings, then the trap's own in order. */
  method Varbinds(uptime: Binding, which: Binding, own: seq<Binding>) returns (out: seq<Byte>)
    ensures out == BindingsOf([uptime, which] + own)
  {
    out := [];
    out := AddVarbind(out, [], uptime);
    out := AddVarbind(out, [] + [uptime], which);
    assert [] + [uptime] + [which] == [uptime, which] + own[..0];
    for i := 0 to |own|
      invariant out == BindingsOf([uptime, which] + own[..i])
    {
      out := AddVarbind(out, [uptime, which] + own[..i], own[i]);
      TakeOneMore([uptime, which], own, i);
    }
    assert own[..|own|] == own;
  }

  method AddVarbind(out: seq<Byte>, ghost said: seq<Binding>, b: Binding) returns (more: seq<Byte>)
    requires out == BindingsOf(said)
    ensures more == BindingsOf(said + [b])
  {
    more := Varbind(b);
    more := out + more;
    BindingsSnoc(said, b);
  }

  lemma BindingsSnoc(bs: seq<Binding>, b: Binding)
    ensures BindingsOf(bs + [b]) == BindingsOf(bs) + BindingOf(b)
  {
    assert Front(bs + [b]) == bs;
  }

  method Encode(community: seq<Byte>, t: Trap) returns (out: seq<Byte>)
    ensures out == Datagram(community, t)
  {
    var varbinds := Varbinds(Binding(SYS_UPTIME, Ticks(t.uptimeTicks)), Binding(TRAP_OID, Oid(t.Name())), t.bindings);
    var list := MakeTlv(SEQUENCE, varbinds);
    var pdu := Integer(RequestId(t));
    var status := Integer(0);
    pdu := pdu + status;
    var index := Integer(0);
    pdu := pdu + index;
    pdu := pdu + list;
    pdu := MakeTlv(TRAP_PDU, pdu);
    var msg := Integer(1);
    var name := MakeTlv(OCTET_STRING, community);
    msg := msg + name;
    msg := msg + pdu;
    out := MakeTlv(SEQUENCE, msg);
  }
}
