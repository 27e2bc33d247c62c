/**
 A writer for the frames `Packet` reads, from their fields to their octets, and what such a
 frame means. It keeps its own numbers, the standards' (IEEE 802.1Q clause 9, section 4 of
 RFC 8200, RFC 768, section 2 of RFC 2131, sections 7.3 and 8 of RFC 8415, section 5 of
 RFC 1350), and takes none from the reader.
 */
module FrameBuilder {
  import opened Common
  import opened Packet

  datatype Tag = Tag(tpid: nat, tci: seq<Byte>) {
    predicate Fits() {
      tpid in {0x8100, 0x88A8} && |tci| == 2
    }
  }

  /** An IPv6 extension header, without its next-header octet. */
  datatype Extension =
    | Options(number: Byte, units: Byte, data: seq<Byte>)
    | Fragment(data: seq<Byte>)
  {
    predicate Fits() {
      match this
      case Options(number, units, data) => number in {0, 43, 60} && |data| == 8 * units + 6
      case Fragment(data) => |data| == 7
    }

    function Number(): Byte {
      if Options? then number else 44
    }

    function Bytes(next: Byte): seq<Byte> {
      match this
      case Options(_, units, data) => [next, units] + data
      case Fragment(data) => [next] + data
    }
  }

  datatype Network =
    | Four(tosLengthId: seq<Byte>, flags: nat, offset: nat, ttl: Byte, proto: Byte, checksum: seq<Byte>,
           src: seq<Byte>, dst: seq<Byte>, options: seq<Byte>)
    | Six(traffic: Byte, flow: seq<Byte>, length: seq<Byte>, hops: Byte, proto: Byte,
          src: seq<Byte>, dst: seq<Byte>, extensions: seq<Extension>)
  {
    ghost predicate Fits() {
      match this
      case Four(tosLengthId, flags, offset, _, _, checksum, src, dst, options) =>
        && |tosLengthId| == 5 && flags < 8 && offset < 0x2000 && |checksum| == 2
        && |src| == 4 && |dst| == 4 && |options| <= 40 && |options| % 4 == 0
      case Six(traffic, flow, length, _, proto, src, dst, extensions) =>
        && traffic < 16 && |flow| == 3 && |length| == 2 && proto !in {0, 43, 44, 60}
        && |src| == 16 && |dst| == 16
        && forall i :: 0 <= i < |extensions| ==> extensions[i].Fits()
    }
  }

  predicate Dhcp4Ports(sport: nat, dport: nat) {
    sport in {67, 68} && dport in {67, 68}
  }

  predicate Dhcp6Ports(sport: nat, dport: nat) {
    sport in {546, 547} && dport in {546, 547}
  }

  predicate TftpPorts(sport: nat, dport: nat) {
    sport == 69 || dport == 69
  }

  /** What the UDP payload carries; `Short` is a payload that ends before its protocol's fixed fields do. */
  datatype Message =
    | Dhcp4(op: Byte, head: seq<Byte>, xid: seq<Byte>, addresses: seq<Byte>, gi: seq<Byte>, rest: seq<Byte>)
    | Dhcp6(kind: Byte, xid: seq<Byte>, rest: seq<Byte>)
    | Tftp(opcode: nat, rest: seq<Byte>)
    | Short(data: seq<Byte>)
    | Other(data: seq<Byte>)
  {
    predicate Fits(sport: nat, dport: nat) {
      match this
      case Dhcp4(_, head, xid, addresses, gi, _) =>
        Dhcp4Ports(sport, dport) && |head| == 3 && |xid| == 4 && |addresses| == 16 && |gi| == 4
      case Dhcp6(_, xid, _) => Dhcp6Ports(sport, dport) && |xid| == 3
      case Tftp(opcode, _) => TftpPorts(sport, dport) && opcode < 0x1_0000
      case Short(data) =>
        if TftpPorts(sport, dport) then |data| < 2
        else if Dhcp4Ports(sport, dport) then |data| < 28
        else Dhcp6Ports(sport, dport) && |data| < 4
      case Other(_) => !TftpPorts(sport, dport) && !Dhcp4Ports(sport, dport) && !Dhcp6Ports(sport, dport)
    }

    function Bytes(): seq<Byte>
      requires Tftp? ==> opcode < 0x1_0000
    {
      match this
      case Dhcp4(op, head, xid, addresses, gi, rest) => [op] + head + xid + addresses + gi + rest
      case Dhcp6(kind, xid, rest) => [kind] + xid + rest
      case Tftp(opcode, rest) => Two(opcode) + rest
      case Short(data) => data
      case Other(data) => data
    }
  }

  datatype Frame = Frame(macs: seq<Byte>, tags: seq<Tag>, net: Network,
                         sport: nat, dport: nat, length: nat, checksum: seq<Byte>, message: Message)
  {
    ghost predicate Fits() {
      && |macs| == 12
      && (forall i :: 0 <= i < |tags| ==> tags[i].Fits())
      && net.Fits()
      && sport < 0x1_0000 && dport < 0x1_0000 && length < 0x1_0000 && |checksum| == 2
      && message.Fits(sport, dport)
    }
  }

  function Two(n: nat): seq<Byte>
    requires n < 0x1_0000
  {
    [n / 256, n % 256]
  }

  ghost function TagBytes(tags: seq<Tag>, ethertype: nat): seq<Byte>
    requires forall i :: 0 <= i < |tags| ==> tags[i].Fits()
    requires ethertype < 0x1_0000
  {
    if tags == [] then Two(ethertype)
    else
      assert tags[0].Fits();
      Two(tags[0].tpid) + tags[0].tci + TagBytes(tags[1..], ethertype)
  }

  ghost function Numbers(extensions: seq<Extension>, proto: Byte): Byte
    requires forall i :: 0 <= i < |extensions| ==> extensions[i].Fits()
  {
    if extensions == [] then proto else extensions[0].Number()
  }

  ghost function ExtensionBytes(extensions: seq<Extension>, proto: Byte): seq<Byte>
    requires forall i :: 0 <= i < |extensions| ==> extensions[i].Fits()
  {
    if extensions == [] then []
    else extensions[0].Bytes(Numbers(extensions[1..], proto)) + ExtensionBytes(extensions[1..], proto)
  }

  ghost function FourHead(net: Network): (b: seq<Byte>)
    requires net.Four? && net.Fits()
    ensures |b| == 10
  {
    [64 + 5 + |net.options| / 4] + net.tosLengthId + Two(net.flags * 0x2000 + net.offset) + [net.ttl, net.proto]
  }

  ghost function SixHead(net: Network): (b: seq<Byte>)
    requires net.Six? && net.Fits()
    ensures |b| == 8
  {
    [96 + net.traffic] + net.flow + net.length + [Numbers(net.extensions, net.proto), net.hops]
  }

  ghost function NetworkBytes(net: Network, payload: seq<Byte>): seq<Byte>
    requires net.Fits()
  {
    match net
    case Four(_, _, _, _, _, checksum, src, dst, options) =>
      FourHead(net) + (checksum + src + dst + options + payload)
    case Six(_, _, _, _, proto, src, dst, extensions) =>
      SixHead(net) + src + dst + ExtensionBytes(extensions, proto) + payload
  }

  ghost function UdpBytes(f: Frame): seq<Byte>
    requires f.Fits()
  {
    Two(f.sport) + Two(f.dport) + Two(f.length) + f.checksum + f.message.Bytes()
  }

  /** The frame's octets with `payload` in place of its datagram. */
  ghost function Carrying(f: Frame, payload: seq<Byte>): seq<Byte>
    requires f.Fits()
  {
    f.macs + TagBytes(f.tags, if f.net.Four? then 0x0800 else 0x86DD) + NetworkBytes(f.net, payload)
  }

  ghost function Build(f: Frame): seq<Byte>
    requires f.Fits()
  {
    Carrying(f, UdpBytes(f))
  }

  /** A frame whose capture ends at its last octet, or inside the UDP checksum of an empty datagram. */
  ghost predicate Shows(b: seq<Byte>, f: Frame) {
    && f.Fits()
    && b <= Build(f) && |Build(f)| <= |b| + 2
    && (b == Build(f) || f.message.Bytes() == [])
  }

  /** The frames the monitor has an opinion about. */
  ghost predicate Readable(f: Frame) {
    && |f.tags| <= 2
    && f.net.proto == 17
    && (f.net.Four? ==> f.net.offset == 0)
    && (f.net.Six? ==> |f.net.extensions| <= 8)
    && f.length >= 8
    && !f.message.Other?
    && (f.message.Tftp? ==> f.message.opcode in {1, 2, 3, 5, 6})
    && (f.message.Short? ==> !TftpPorts(f.sport, f.dport))
  }

  ghost function KindOf(m: Message, sport: nat, dport: nat): Kind {
    match m
    case Dhcp4(op, _, _, _, _, _) => if op == 2 then ServerReply else ClientRequest
    case Dhcp6(kind, _, _) => if kind in {2, 7, 10, 13} then ServerReply else ClientRequest
    case Tftp(opcode, _) => if opcode in {1, 2} then TftpRequest else TftpReply
    case Short(data) =>
      if data == [] then
        if sport in {67, 547} && dport in {68, 546} then ServerReply else ClientRequest
      else if sport in {67, 68} then
        if data[0] == 2 then ServerReply else ClientRequest
      else
        if data[0] in {2, 7, 10, 13} then ServerReply else ClientRequest
    case Other(_) => ClientRequest
  }

  /** Four octets of id survive in a cut DHCPv4 payload from eight octets on; DHCPv6 has none to spare. */
  ghost function XidOf(m: Message, sport: nat, dport: nat): Option<nat> {
    if m.Dhcp4? || m.Dhcp6? then Some(BeValue(m.xid))
    else if m.Short? && Dhcp4Ports(sport, dport) && |m.data| >= 8 then Some(BeValue(m.data[4..8]))
    else None
  }

  /** What the frame says, from the fields it was built with. */
  ghost function Meaning(f: Frame): Seen
    requires f.Fits() && Readable(f)
  {
    Seen(KindOf(f.message, f.sport, f.dport),
         if f.net.Four? then V4(f.net.src) else V6(f.net.src),
         if f.net.Four? then V4(f.net.dst) else V6(f.net.dst),
         f.sport, f.dport,
         if f.message.Dhcp4? && BeValue(f.message.gi) != 0 then Some(BeValue(f.message.gi)) else None,
         XidOf(f.message, f.sport, f.dport),
         f.length - 8)
  }
}
