/** Reading a built frame gives back exactly what it was built from. */
module FrameRoundTrip {
  import opened Common
  import opened Packet
  import opened FrameBuilder

  lemma SliceMiddle(a: seq<Byte>, m: seq<Byte>, c: seq<Byte>)
    ensures Slice(a + m + c, |a|, |m|) == Some(m)
  {
    assert (a + m + c)[|a|..|a| + |m|] == m;
  }

  lemma TwoReads(a: seq<Byte>, n: nat, c: seq<Byte>)
    requires n < 0x1_0000
    ensures Be16(a + Two(n) + c, |a|) == Some(n)
  {
    var b := a + Two(n) + c;
    assert b[|a|] == n / 256 && b[|a| + 1] == n % 256;
  }

  lemma {:induction false} TagsRead(pre: seq<Byte>, tags: seq<Tag>, ethertype: nat, rest: seq<Byte>, left: nat)
    requires forall i :: 0 <= i < |tags| ==> tags[i].Fits()
    requires ethertype < 0x1_0000 && ethertype !in {0x8100, 0x88A8}
    ensures var r := SkipTags(pre + TagBytes(tags, ethertype) + rest, |pre|, left);
            && r.Some?
            && (|tags| <= left ==> r.value == (ethertype, rest))
            && (|tags| > left ==> r.value.0 in {0x8100, 0x88A8})
    decreases left
  {
    var b := pre + TagBytes(tags, ethertype) + rest;
    if tags == [] {
      TwoReads(pre, ethertype, rest);
      assert b[|pre| + 2..] == rest;
    } else {
      var t, more := tags[0], TagBytes(tags[1..], ethertype) + rest;
      assert b == pre + Two(t.tpid) + (t.tci + more);
      TwoReads(pre, t.tpid, t.tci + more);
      if left > 0 {
        var further := pre + Two(t.tpid) + t.tci;
        assert b == further + TagBytes(tags[1..], ethertype) + rest;
        TagsRead(further, tags[1..], ethertype, rest, left - 1);
      }
    }
  }

  lemma RegroupFour(a: seq<Byte>, b: seq<Byte>, c: seq<Byte>, d: seq<Byte>)
    ensures a + (b + c) + d == a + b + (c + d) == (a + b) + c + d
  {
  }

  lemma WalkStep(pre: seq<Byte>, x: Extension, next: Byte, rest: seq<Byte>, left: nat)
    requires x.Fits() && left > 0
    ensures var b := pre + x.Bytes(next) + rest;
            Walk(b, x.Number(), |pre|, left) == Walk(b, next, |pre + x.Bytes(next)|, left - 1)
  {
    var b := pre + x.Bytes(next) + rest;
    assert b[|pre|] == next;
    if x.Options? {
      assert b[|pre| + 1] == x.units;
    }
  }

  /** The walk over a built chain of `count` headers ends at the payload, or at an extension it had no steps left for. */
  ghost predicate WalkEnds(b: seq<Byte>, count: nat, proto: Byte, rest: seq<Byte>, left: nat, r: Option<(nat, nat)>) {
    && r.Some? && r.value.1 <= |b|
    && (count <= left ==> r.value.0 == proto && b[r.value.1..] == rest)
    && (count > left ==> r.value.0 in {0, 43, 44, 60})
  }

  lemma {:induction false} WalkReads(pre: seq<Byte>, extensions: seq<Extension>, proto: Byte, rest: seq<Byte>, left: nat)
    requires forall i :: 0 <= i < |extensions| ==> extensions[i].Fits()
    requires proto !in {0, 43, 44, 60}
    ensures var b := pre + ExtensionBytes(extensions, proto) + rest;
            WalkEnds(b, |extensions|, proto, rest, left, Walk(b, Numbers(extensions, proto), |pre|, left))
    decreases left
  {
    if extensions == [] {
      NothingToWalk(pre, rest);
    } else {
      var x, others := extensions[0], extensions[1..];
      assert x.Fits();
      if left > 0 {
        var next := Numbers(others, proto);
        WalkReads(pre + x.Bytes(next), others, proto, rest, left - 1);
        WalkOneMore(pre, x, next, ExtensionBytes(others, proto), |others|, proto, rest, left);
      }
    }
  }

  lemma NothingToWalk(pre: seq<Byte>, rest: seq<Byte>)
    ensures (pre + [] + rest)[|pre|..] == rest
  {
  }

  /** A chain read to its end from behind its first header is read to its end from that header on. */
  lemma WalkOneMore(pre: seq<Byte>, x: Extension, next: Byte, chain: seq<Byte>, count: nat, proto: Byte, rest: seq<Byte>,
                    left: nat)
    requires x.Fits() && left > 0
    requires var b := pre + x.Bytes(next) + chain + rest;
             WalkEnds(b, count, proto, rest, left - 1, Walk(b, next, |pre + x.Bytes(next)|, left - 1))
    ensures var b := pre + (x.Bytes(next) + chain) + rest;
            WalkEnds(b, count + 1, proto, rest, left, Walk(b, x.Number(), |pre|, left))
  {
    RegroupFour(pre, x.Bytes(next), chain, rest);
    WalkStep(pre, x, next, chain + rest, left);
  }

  lemma FourHeadReads(net: Network, tail: seq<Byte>)
    requires net.Four? && net.Fits()
    ensures var b := FourHead(net) + tail;
            && b[0] == 69 + |net.options| / 4
            && Get(b, 9) == Some(net.proto)
            && Be16(b, 6) == Some(net.flags * 0x2000 + net.offset)
  {
    var frag := net.flags * 0x2000 + net.offset;
    var h := FourHead(net);
    assert h[6] == frag / 256 && h[7] == frag % 256 && h[9] == net.proto;
  }

  lemma TrailingFields(h: seq<Byte>, sum: seq<Byte>, src: seq<Byte>, dst: seq<Byte>, options: seq<Byte>, payload: seq<Byte>)
    requires |h| == 10 && |sum| == 2 && |src| == 4 && |dst| == 4
    ensures var b := h + (sum + src + dst + options + payload);
            && Slice(b, 12, 4) == Some(src)
            && Slice(b, 16, 4) == Some(dst)
            && From(b, 20 + |options|) == Some(payload)
  {
    var b := h + (sum + src + dst + options + payload);
    assert b[12..16] == src;
    assert b[16..20] == dst;
    assert b[20 + |options|..] == payload;
  }

  lemma Ipv4FromFields(b: seq<Byte>, net: Network, payload: seq<Byte>)
    requires net.Four? && net.Fits()
    requires b != [] && b[0] == 69 + |net.options| / 4
    requires Get(b, 9) == Some(net.proto) && Be16(b, 6) == Some(net.flags * 0x2000 + net.offset)
    requires Slice(b, 12, 4) == Some(net.src) && Slice(b, 16, 4) == Some(net.dst)
    requires From(b, 20 + |net.options|) == Some(payload)
    ensures Ipv4(b) == if net.offset == 0 then Some(Net(V4(net.src), V4(net.dst), net.proto, payload)) else None
  {
    assert b[0] / 16 == 4 && b[0] % 16 * 4 == 20 + |net.options|;
    assert (net.flags * 0x2000 + net.offset) % 0x2000 == net.offset;
  }

  lemma Ipv4Reads(net: Network, payload: seq<Byte>)
    requires net.Four? && net.Fits()
    ensures Ipv4(NetworkBytes(net, payload)) ==
      if net.offset == 0 then Some(Net(V4(net.src), V4(net.dst), net.proto, payload)) else None
  {
    var tail := net.checksum + net.src + net.dst + net.options + payload;
    FourHeadReads(net, tail);
    TrailingFields(FourHead(net), net.checksum, net.src, net.dst, net.options, payload);
    Ipv4FromFields(FourHead(net) + tail, net, payload);
  }

  lemma Ipv6Fields(h: seq<Byte>, src: seq<Byte>, dst: seq<Byte>, chain: seq<Byte>, payload: seq<Byte>)
    requires |h| == 8 && |src| == 16 && |dst| == 16
    ensures var b := h + src + dst + chain + payload;
            && b[0] == h[0] && b[6] == h[6]
            && Slice(b, 8, 16) == Some(src)
            && Slice(b, 24, 16) == Some(dst)
  {
    var b := h + src + dst + chain + payload;
    assert b[8..24] == src;
    assert b[24..40] == dst;
  }

  lemma Ipv6FromFields(b: seq<Byte>, first: Byte, number: Byte, src: seq<Byte>, dst: seq<Byte>)
    requires |b| > 6 && b[0] == first && b[6] == number && first / 16 == 6
    requires Slice(b, 8, 16) == Some(src) && Slice(b, 24, 16) == Some(dst)
    ensures var end := Walk(b, number, 40, MAX_EXTENSIONS);
            end.Some? && end.value.1 <= |b| ==>
            Ipv6Of(b) == Some(Net(V6(src), V6(dst), end.value.0, b[end.value.1..]))
  {
  }

  lemma Ipv6Reads(net: Network, payload: seq<Byte>)
    requires net.Six? && net.Fits()
    ensures var r := Ipv6Of(NetworkBytes(net, payload));
            && r.Some?
            && (|net.extensions| <= 8 ==> r.value == Net(V6(net.src), V6(net.dst), net.proto, payload))
            && (|net.extensions| > 8 ==> r.value.proto in {0, 43, 44, 60})
  {
    var h, chain := SixHead(net), ExtensionBytes(net.extensions, net.proto);
    assert h[0] == 96 + net.traffic && h[6] == Numbers(net.extensions, net.proto);
    Ipv6Fields(h, net.src, net.dst, chain, payload);
    WalkReads(h + net.src + net.dst, net.extensions, net.proto, payload, MAX_EXTENSIONS);
    Ipv6FromFields(h + net.src + net.dst + chain + payload, h[0], h[6], net.src, net.dst);
  }

  /** The datagram's octets, or all of an empty one but its checksum's end. */
  ghost predicate DatagramShown(f: Frame, shown: seq<Byte>)
    requires f.Fits()
  {
    shown == UdpBytes(f) || (6 <= |shown| < 8 && f.message.Bytes() == [] && shown == UdpBytes(f)[..|shown|])
  }

  lemma UdpHeadReads(f: Frame, shown: seq<Byte>)
    requires f.Fits() && 6 <= |shown| <= |UdpBytes(f)| && shown == UdpBytes(f)[..|shown|]
    ensures Be16(shown, 0) == Some(f.sport) && Be16(shown, 2) == Some(f.dport) && Be16(shown, 4) == Some(f.length)
  {
    var b := UdpBytes(f);
    assert b[0] == f.sport / 256 && b[1] == f.sport % 256;
    assert b[2] == f.dport / 256 && b[3] == f.dport % 256;
    assert b[4] == f.length / 256 && b[5] == f.length % 256;
  }

  lemma UdpReads(f: Frame, shown: seq<Byte>)
    requires f.Fits() && DatagramShown(f, shown)
    ensures Udp(shown) ==
      if f.length < 8 then None else Some(Datagram(f.sport, f.dport, f.length - 8, f.message.Bytes()))
  {
    assert UdpBytes(f)[..|UdpBytes(f)|] == UdpBytes(f);
    assert UdpBytes(f)[8..] == f.message.Bytes();
    UdpHeadReads(f, shown);
  }

  lemma Dhcp4FieldsRead(head: seq<Byte>, xid: seq<Byte>, addresses: seq<Byte>, gi: seq<Byte>, rest: seq<Byte>)
    ensures var b := head + xid + addresses + gi + rest;
            && Slice(b, |head|, |xid|) == Some(xid)
            && Slice(b, |head| + |xid| + |addresses|, |gi|) == Some(gi)
  {
    var b := head + xid + addresses + gi + rest;
    assert b == head + xid + (addresses + gi + rest);
    SliceMiddle(head, xid, addresses + gi + rest);
    SliceMiddle(head + xid + addresses, gi, rest);
  }

  lemma MessageReads(m: Message, sport: nat, dport: nat)
    requires m.Fits(sport, dport)
    ensures Classify(sport, dport, m.Bytes()) ==
      if m.Other? || (m.Tftp? && m.opcode !in {1, 2, 3, 5, 6}) || (m.Short? && TftpPorts(sport, dport)) then None
      else Some(KindOf(m, sport, dport))
    ensures Giaddr(sport, dport, m.Bytes()) ==
      if m.Dhcp4? && BeValue(m.gi) != 0 then Some(BeValue(m.gi)) else None
    ensures Xid(sport, dport, m.Bytes()) == XidOf(m, sport, dport)
  {
    var b := m.Bytes();
    match m {
      case Dhcp4(op, head, xid, addresses, gi, rest) =>
        Dhcp4FieldsRead([op] + head, xid, addresses, gi, rest);
        assert b[0] == op;
      case Dhcp6(kind, xid, rest) =>
        SliceMiddle([kind], xid, rest);
      case Tftp(opcode, rest) =>
        assert b == [] + Two(opcode) + rest;
        TwoReads([], opcode, rest);
      case Short(_) =>
      case Other(_) =>
    }
  }

  /** What the network layer should make of a frame. */
  ghost predicate NetAgrees(f: Frame, payload: seq<Byte>, n: Option<Net>)
    requires f.Fits()
  {
    if |f.tags| > 2 || (f.net.Four? && f.net.offset != 0) then n.None?
    else if f.net.Six? && |f.net.extensions| > 8 then n.Some? && n.value.proto != 17
    else n.Some? && n.value.proto == f.net.proto && n.value.payload == payload
         && n.value.src == (if f.net.Four? then V4(f.net.src) else V6(f.net.src))
         && n.value.dst == (if f.net.Four? then V4(f.net.dst) else V6(f.net.dst))
  }

  lemma NetReads(f: Frame, payload: seq<Byte>)
    requires f.Fits()
    ensures NetAgrees(f, payload, NetOf(Carrying(f, payload)))
  {
    TagsRead(f.macs, f.tags, if f.net.Four? then 0x0800 else 0x86DD, NetworkBytes(f.net, payload), MAX_TAGS);
    if f.net.Four? {
      Ipv4Reads(f.net, payload);
    } else {
      Ipv6Reads(f.net, payload);
    }
  }

  /** What is left of reading once the network layer is done. */
  function ReadNet(n: Option<Net>): Option<Seen> {
    if n.None? || n.value.proto != UDP || Udp(n.value.payload).None? then None
    else Packet.SeenIn(n.value.src, n.value.dst, Udp(n.value.payload).value)
  }

  lemma ReadIsReadNet(frame: seq<Byte>)
    ensures ReadOf(frame) == ReadNet(NetOf(frame))
  {
  }

  lemma NetMeans(f: Frame, shown: seq<Byte>, n: Option<Net>)
    requires f.Fits() && DatagramShown(f, shown) && NetAgrees(f, shown, n)
    ensures ReadNet(n) == if Readable(f) then Some(Meaning(f)) else None
  {
    UdpReads(f, shown);
    MessageReads(f.message, f.sport, f.dport);
  }

  lemma CarriedReads(f: Frame, shown: seq<Byte>)
    requires f.Fits() && DatagramShown(f, shown)
    ensures ReadOf(Carrying(f, shown)) == if Readable(f) then Some(Meaning(f)) else None
  {
    ReadIsReadNet(Carrying(f, shown));
    NetReads(f, shown);
    NetMeans(f, shown, NetOf(Carrying(f, shown)));
  }

  /**
   Reading undoes writing: for every frame, with any tags, header length, options or chain
   of extension headers, the reader returns the frame's meaning, and nothing for the rest.
   */
  lemma ReadUndoesBuild(f: Frame)
    requires f.Fits()
    ensures ReadOf(Build(f)) == if Readable(f) then Some(Meaning(f)) else None
  {
    CarriedReads(f, UdpBytes(f));
  }

  lemma PayloadComesLast(f: Frame, payload: seq<Byte>)
    requires f.Fits()
    ensures Carrying(f, payload) == Carrying(f, []) + payload
  {
    NetworkPayloadLast(f.net, payload);
  }

  lemma NetworkPayloadLast(net: Network, payload: seq<Byte>)
    requires net.Fits()
    ensures NetworkBytes(net, payload) == NetworkBytes(net, []) + payload
  {
  }

  lemma CutInPayload(head: seq<Byte>, payload: seq<Byte>, b: seq<Byte>)
    requires b <= head + payload && |b| >= |head|
    ensures b == head + payload[..|b| - |head|]
  {
  }

  /** A frame cut inside the checksum of an empty datagram is read as the frame is. */
  lemma ReadUndoesCut(b: seq<Byte>, f: Frame)
    requires Shows(b, f)
    ensures ReadOf(b) == if Readable(f) then Some(Meaning(f)) else None
  {
    if b == Build(f) {
      ReadUndoesBuild(f);
    } else {
      var u := UdpBytes(f);
      PayloadComesLast(f, u);
      CutInPayload(Carrying(f, []), u, b);
      var shown := u[..|b| - |Carrying(f, [])|];
      PayloadComesLast(f, shown);
      CarriedReads(f, shown);
    }
  }
}
