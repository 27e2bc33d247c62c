/**
 A reference reader for the octets `Ber` writes: the basic encoding rules of ITU-T X.690, read
 from the left. Its tags are the standards' own: integer, octet string, object identifier and
 sequence of X.690, Counter32, TimeTicks and the v2 trap of section 3 of RFC 3416.
 */
module BerReader {
  import opened Common
  import opened Ber

  datatype Element = Element(tag: Byte, body: seq<Byte>, rest: seq<Byte>)

  /** Definite lengths, sections 8.1.3.4 and 8.1.3.5: the length and what follows it. */
  function ReadLength(s: seq<Byte>): Option<(nat, seq<Byte>)> {
    if s == [] then None
    else if s[0] < 128 then Some((s[0], s[1..]))
    else
      var k := s[0] - 128;
      if k == 0 || |s| < 1 + k then None
      else Some((BeValue(s[1..1 + k]), s[1 + k..]))
  }

  function ReadElement(s: seq<Byte>): Option<Element> {
    if s == [] then None
    else
      var n := ReadLength(s[1..]);
      if n.None? || |n.value.1| < n.value.0 then None
      else Some(Element(s[0], n.value.1[..n.value.0], n.value.1[n.value.0..]))
  }

  /** An element of the tag expected. */
  function Expect(s: seq<Byte>, tag: Byte): Option<Element> {
    var e := ReadElement(s);
    if e.Some? && e.value.tag == tag then e else None
  }

  /** One subidentifier, section 8.19.2: septets until one without its high bit. */
  function ReadArc(s: seq<Byte>, sofar: nat): Option<(nat, seq<Byte>)> {
    if s == [] then None
    else if s[0] >= 128 then ReadArc(s[1..], sofar * 128 + (s[0] - 128))
    else Some((sofar * 128 + s[0], s[1..]))
  }

  function ReadArcs(s: seq<Byte>): Option<seq<nat>>
    decreases |s|
  {
    if s == [] then Some([])
    else
      var first := ReadArc(s, 0);
      if first.None? || |first.value.1| >= |s| then None
      else
        var rest := ReadArcs(first.value.1);
        if rest.None? then None else Some([first.value.0] + rest.value)
  }

  /** Section 8.19.4: the first subidentifier holds two arcs. */
  function Unpacked(v: nat): seq<nat> {
    if v < 40 then [0, v] else if v < 80 then [1, v - 40] else [2, v - 80]
  }

  function ReadOid(body: seq<Byte>): Option<seq<nat>> {
    var arcs := ReadArcs(body);
    if arcs.None? || arcs.value == [] then None
    else Some(Unpacked(arcs.value[0]) + arcs.value[1..])
  }

  function ReadInteger(body: seq<Byte>): Option<int> {
    if body == [] then None else Some(SignedValue(body))
  }

  function ReadUnsigned(body: seq<Byte>): Option<nat> {
    if body == [] || SignedValue(body) < 0 then None else Some(SignedValue(body))
  }

  function ReadValue(tag: Byte, body: seq<Byte>): Option<Value> {
    if tag == 0x04 then Some(Str(body))
    else if tag == 0x41 then
      var n := ReadUnsigned(body);
      if n.None? then None else Some(Count(n.value))
    else if tag == 0x43 then
      var n := ReadUnsigned(body);
      if n.None? then None else Some(Ticks(n.value))
    else if tag == 0x06 then
      var arcs := ReadOid(body);
      if arcs.None? then None else Some(Oid(arcs.value))
    else None
  }

  /** The body of one varbind: a name, a value, and nothing after it. */
  function ReadBinding(body: seq<Byte>): Option<Binding> {
    var name := Expect(body, 0x06);
    if name.None? then None
    else
      var arcs, v := ReadOid(name.value.body), ReadElement(name.value.rest);
      if arcs.None? || v.None? || v.value.rest != [] then None
      else
        var value := ReadValue(v.value.tag, v.value.body);
        if value.None? then None else Some(Binding(arcs.value, value.value))
  }

  function ReadBindings(s: seq<Byte>): Option<seq<Binding>>
    decreases |s|
  {
    if s == [] then Some([])
    else
      var e := Expect(s, 0x30);
      if e.None? || |e.value.rest| >= |s| then None
      else
        var first, rest := ReadBinding(e.value.body), ReadBindings(e.value.rest);
        if first.None? || rest.None? then None else Some([first.value] + rest.value)
  }

  // sysUpTime.0, snmpTrapOID.0 and this program's own arc, as a receiver knows them.

  const UPTIME_NAME: seq<nat> := [1, 3, 6, 1, 2, 1, 1, 3, 0]
  const WHICH_NAME: seq<nat> := [1, 3, 6, 1, 6, 3, 1, 1, 4, 1, 0]
  const OWN_NAME: seq<nat> := [1, 3, 6, 1, 4, 1, 99_999]

  datatype Message = Message(version: int, community: seq<Byte>, requestId: int, errorStatus: int, errorIndex: int,
                             bindings: seq<Binding>)

  function ReadInt(s: seq<Byte>): Option<(int, seq<Byte>)> {
    var e := Expect(s, 0x02);
    if e.None? || ReadInteger(e.value.body).None? then None
    else Some((ReadInteger(e.value.body).value, e.value.rest))
  }

  datatype Pdu = Pdu(requestId: int, errorStatus: int, errorIndex: int, bindings: seq<Binding>)

  function ReadPdu(s: seq<Byte>): Option<Pdu> {
    var id := ReadInt(s);
    if id.None? then None
    else
      var status := ReadInt(id.value.1);
      if status.None? then None
      else
        var index := ReadInt(status.value.1);
        if index.None? then None
        else
          var list := Expect(index.value.1, 0x30);
          if list.None? || list.value.rest != [] then None
          else
            var bs := ReadBindings(list.value.body);
            if bs.None? then None else Some(Pdu(id.value.0, status.value.0, index.value.0, bs.value))
  }

  /** A whole SNMPv2c trap datagram, with not an octet left over. */
  function ReadMessage(s: seq<Byte>): Option<Message> {
    var outer := Expect(s, 0x30);
    if outer.None? || outer.value.rest != [] then None
    else
      var version := ReadInt(outer.value.body);
      if version.None? then None
      else
        var name := Expect(version.value.1, 0x04);
        if name.None? then None
        else
          var body := Expect(name.value.rest, 0xA7);
          if body.None? || body.value.rest != [] then None
          else
            var pdu := ReadPdu(body.value.body);
            if pdu.None? then None
            else
              Some(Message(version.value.0, name.value.body,
                           pdu.value.requestId, pdu.value.errorStatus, pdu.value.errorIndex, pdu.value.bindings))
  }
}
