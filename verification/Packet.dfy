/** src/packet.rs: from the octets of a frame to its kind, its two ends, its relay and its transaction id. */
module Packet {
  import opened Common

  const DHCP_SERVER := 67
  const DHCP_CLIENT := 68
  const DHCP6_CLIENT := 546
  const DHCP6_SERVER := 547
  const TFTP := 69
  const UDP := 17

  const IPV4 := 0x0800
  const IPV6 := 0x86DD
  const DOT1Q := 0x8100
  const DOT1AD := 0x88A8

  const MAX_TAGS: nat := 2
  const MAX_EXTENSIONS: nat := 8

  datatype Kind = ClientRequest | ServerReply | TftpRequest | TftpReply

  type Quad = s: seq<Byte> | |s| == 4 witness [0, 0, 0, 0]
  type Sixteen = s: seq<Byte> | |s| == 16 witness [0, 0, 0, 0, 0, 0, 0, 0, 0, 0, 0, 0, 0, 0, 0, 0]

  datatype Addr = V4(quad: Quad) | V6(sixteen: Sixteen)

  datatype Seen = Seen(
    kind: Kind,
    src: Addr,
    dst: Addr,
    sport: nat,
    dport: nat,
    gi: Option<nat>,
    xid: Option<nat>,
    bytes: nat)

  // Bounds-checked reads.

  function Get(b: seq<Byte>, at: nat): Option<Byte> {
    if at < |b| then Some(b[at]) else None
  }

  function From(b: seq<Byte>, at: nat): Option<seq<Byte>> {
    if at <= |b| then Some(b[at..]) else None
  }

  function Slice(b: seq<Byte>, at: nat, n: nat): Option<seq<Byte>> {
    if at + n <= |b| then Some(b[at..at + n]) else None
  }

  function Pair(high: nat, low: nat): nat {
    high * 256 + low
  }

  function Be16(b: seq<Byte>, at: nat): Option<nat> {
    if at + 1 < |b| then Some(Pair(b[at], b[at + 1])) else None
  }

  // Ethernet.

  predicate IsTag(ethertype: nat) {
    ethertype == DOT1Q || ethertype == DOT1AD
  }

  /** The ethertype and payload once at most `left` more tags are stepped over. */
  function SkipTags(frame: seq<Byte>, at: nat, left: nat): Option<(nat, seq<Byte>)>
    decreases left
  {
    var e := Be16(frame, at);
    if e.None? then None
    else if left > 0 && IsTag(e.value) then SkipTags(frame, at + 4, left - 1)
    else Some((e.value, frame[at + 2..]))
  }

  function EthernetOf(frame: seq<Byte>): Option<(nat, seq<Byte>)> {
    SkipTags(frame, 12, MAX_TAGS)
  }

  method Ethernet(frame: seq<Byte>) returns (r: Option<(nat, seq<Byte>)>)
    ensures r == EthernetOf(frame)
  {
    var at := 12;
    var e := Be16(frame, at);
    if e.None? {
      return None;
    }
    var ethertype := e.value;
    for seen := 0 to MAX_TAGS
      invariant Be16(frame, at) == Some(ethertype)
      invariant EthernetOf(frame) == SkipTags(frame, at, MAX_TAGS - seen)
    {
      if IsTag(ethertype) {
        at := at + 4;
        e := Be16(frame, at);
        if e.None? {
          return None;
        }
        ethertype := e.value;
      } else {
        break;
      }
    }
    var rest := From(frame, at + 2);
    if rest.None? {
      return None;
    }
    return Some((ethertype, rest.value));
  }

  /** What the network layer hands on: addresses, protocol and payload. */
  datatype Net = Net(src: Addr, dst: Addr, proto: nat, payload: seq<Byte>)

  function Ipv4(b: seq<Byte>): Option<Net> {
    if b == [] || b[0] / 16 != 4 then None
    else
      var ihl := b[0] % 16 * 4;
      if ihl < 20 then None
      else
        var proto, src, dst, frag := Get(b, 9), Slice(b, 12, 4), Slice(b, 16, 4), Be16(b, 6);
        if proto.None? || src.None? || dst.None? || frag.None? then None
        else if frag.value % 0x2000 != 0 then None
        else
          var payload := From(b, ihl);
          if payload.None? then None
          else Some(Net(V4(src.value), V4(dst.value), proto.value, payload.value))
  }

  // IPv6.

  predicate IsOptions(next: nat) {
    next == 0 || next == 43 || next == 60
  }

  /** The length field counts 8-octet units after the first. */
  function OptionsLength(units: nat): nat {
    (units + 1) * 8
  }

  const FRAGMENT := 44

  predicate IsExtension(next: nat) {
    IsOptions(next) || next == FRAGMENT
  }

  /** Where the chain of extension headers ends, following at most `left` of them. */
  function Walk(b: seq<Byte>, next: nat, at: nat, left: nat): Option<(nat, nat)>
    decreases left
  {
    if left == 0 || !IsExtension(next) then Some((next, at))
    else if IsOptions(next) then
      if at + 1 < |b| then Walk(b, b[at], at + OptionsLength(b[at + 1]), left - 1) else None
    else
      if at < |b| then Walk(b, b[at], at + 8, left - 1) else None
  }

  /** How many headers that walk steps over. */
  ghost function Followed(b: seq<Byte>, next: nat, at: nat, left: nat): nat
    decreases left
  {
    if left == 0 || !IsExtension(next) || at >= |b| then 0
    else if next == FRAGMENT then 1 + Followed(b, b[at], at + 8, left - 1)
    else if at + 1 < |b| then 1 + Followed(b, b[at], at + OptionsLength(b[at + 1]), left - 1)
    else 0
  }

  /** Every header followed moves the walk at least eight octets on, and it stops only when done or spent. */
  lemma {:induction false} WalkAdvances(b: seq<Byte>, next: nat, at: nat, left: nat)
    requires Walk(b, next, at, left).Some?
    ensures var end, n := Walk(b, next, at, left).value, Followed(b, next, at, left);
            && at + 8 * n <= end.1
            && n <= left
            && (IsExtension(end.0) ==> n == left)
            && (n == 0 ==> end == (next, at))
    decreases left
  {
    if left > 0 && IsExtension(next) {
      WalkAdvances(b, b[at], if IsOptions(next) then at + OptionsLength(b[at + 1]) else at + 8, left - 1);
    }
  }

  function Ipv6Of(b: seq<Byte>): Option<Net> {
    if b == [] || b[0] / 16 != 6 then None
    else
      var src, dst, next := Slice(b, 8, 16), Slice(b, 24, 16), Get(b, 6);
      if src.None? || dst.None? || next.None? then None
      else
        var end := Walk(b, next.value, 40, MAX_EXTENSIONS);
        if end.None? then None
        else
          var payload := From(b, end.value.1);
          if payload.None? then None
          else Some(Net(V6(src.value), V6(dst.value), end.value.0, payload.value))
  }

  method Ipv6(b: seq<Byte>) returns (r: Option<Net>)
    ensures r == Ipv6Of(b)
  {
    if b == [] || b[0] / 16 != 6 {
      return None;
    }
    var src, dst, first := Slice(b, 8, 16), Slice(b, 24, 16), Get(b, 6);
    if src.None? || dst.None? || first.None? {
      return None;
    }
    var next: nat := first.value;
    var at: nat := 40;
    for step := 0 to MAX_EXTENSIONS
      invariant Walk(b, first.value, 40, MAX_EXTENSIONS) == Walk(b, next, at, MAX_EXTENSIONS - step)
    {
      if IsOptions(next) {
        var more := Get(b, at + 1);
        if more.None? {
          return None;
        }
        var len := OptionsLength(more.value);
        next := b[at];
        at := at + len;
      } else if next == FRAGMENT {
        var more := Get(b, at);
        if more.None? {
          return None;
        }
        next := more.value;
        at := at + 8;
      } else {
        break;
      }
    }
    var payload := From(b, at);
    if payload.None? {
      return None;
    }
    return Some(Net(V6(src.value), V6(dst.value), next, payload.value));
  }

  // UDP.

  datatype Datagram = Datagram(sport: nat, dport: nat, len: nat, body: seq<Byte>)

  function Udp(b: seq<Byte>): Option<Datagram> {
    var sport, dport, len := Be16(b, 0), Be16(b, 2), Be16(b, 4);
    if sport.None? || dport.None? || len.None? then None
    else if len.value < 8 then None
    else Some(Datagram(sport.value, dport.value, len.value - 8, if 8 <= |b| then b[8..] else []))
  }

  // What the datagram is.

  predicate IsDhcp4(sport: nat, dport: nat) {
    sport in {DHCP_SERVER, DHCP_CLIENT} && dport in {DHCP_SERVER, DHCP_CLIENT}
  }

  predicate IsDhcp6(sport: nat, dport: nat) {
    sport in {DHCP6_SERVER, DHCP6_CLIENT} && dport in {DHCP6_SERVER, DHCP6_CLIENT}
  }

  predicate IsDhcp6ServerMessage(t: Byte) {
    t in {2, 7, 10, 13}
  }

  function PortDirection(sport: nat, dport: nat): Kind {
    if sport in {DHCP_SERVER, DHCP6_SERVER} && dport in {DHCP_CLIENT, DHCP6_CLIENT} then ServerReply else ClientRequest
  }

  function TftpKind(body: seq<Byte>): Option<Kind> {
    var op := Be16(body, 0);
    if op.None? then None
    else if op.value in {1, 2} then Some(TftpRequest)
    else if op.value in {3, 5, 6} then Some(TftpReply)
    else None
  }

  function Classify(sport: nat, dport: nat, body: seq<Byte>): Option<Kind> {
    if dport == TFTP || sport == TFTP then TftpKind(body)
    else if IsDhcp4(sport, dport) then
      Some(if body == [] then PortDirection(sport, dport)
           else if body[0] == 2 then ServerReply
           else ClientRequest)
    else if IsDhcp6(sport, dport) then
      Some(if body == [] then PortDirection(sport, dport)
           else if IsDhcp6ServerMessage(body[0]) then ServerReply
           else ClientRequest)
    else None
  }

  function Giaddr(sport: nat, dport: nat, body: seq<Byte>): Option<nat> {
    if !IsDhcp4(sport, dport) then None
    else
      var gi := Slice(body, 24, 4);
      if gi.None? || BeValue(gi.value) == 0 then None else Some(BeValue(gi.value))
  }

  function Xid(sport: nat, dport: nat, body: seq<Byte>): Option<nat> {
    var id :=
      if IsDhcp4(sport, dport) then Slice(body, 4, 4)
      else if IsDhcp6(sport, dport) then Slice(body, 1, 3)
      else None;
    if id.None? then None else Some(BeValue(id.value))
  }

  /** Everything up to the UDP payload. */
  function NetOf(frame: seq<Byte>): Option<Net> {
    var e := EthernetOf(frame);
    if e.None? then None
    else if e.value.0 == IPV4 then Ipv4(e.value.1)
    else if e.value.0 == IPV6 then Ipv6Of(e.value.1)
    else None
  }

  function DatagramOf(frame: seq<Byte>): Option<Datagram> {
    var n := NetOf(frame);
    if n.None? || n.value.proto != UDP then None else Udp(n.value.payload)
  }

  function SeenIn(src: Addr, dst: Addr, d: Datagram): Option<Seen> {
    var kind := Classify(d.sport, d.dport, d.body);
    if kind.None? then None
    else
      Some(Seen(kind.value, src, dst, d.sport, d.dport,
                Giaddr(d.sport, d.dport, d.body), Xid(d.sport, d.dport, d.body), d.len))
  }

  function ReadOf(frame: seq<Byte>): Option<Seen> {
    var d := DatagramOf(frame);
    if d.None? then None else SeenIn(NetOf(frame).value.src, NetOf(frame).value.dst, d.value)
  }

  method Read(frame: seq<Byte>) returns (r: Option<Seen>)
    ensures r == ReadOf(frame)
  {
    var e := Ethernet(frame);
    if e.None? {
      return None;
    }
    var n: Option<Net>;
    if e.value.0 == IPV4 {
      n := Ipv4(e.value.1);
    } else if e.value.0 == IPV6 {
      n := Ipv6(e.value.1);
    } else {
      return None;
    }
    if n.None? || n.value.proto != UDP {
      return None;
    }
    var d := Udp(n.value.payload);
    if d.None? {
      return None;
    }
    return SeenIn(n.value.src, n.value.dst, d.value);
  }
}
