/** The reader recognises nothing but frames: whatever it reads could have been built, and means what was read. */
module FrameConverse {
  import opened Common
  import opened Packet
  import opened FrameBuilder
  import opened FrameRoundTrip

  lemma PairSpells(b: seq<Byte>, at: nat)
    requires Be16(b, at).Some?
    ensures Be16(b, at).value < 0x1_0000
    ensures b[at..] == Two(Be16(b, at).value) + b[at + 2..]
  {
  }

  /** The tags stepped over, from the octets they were read from. */
  lemma {:induction false} TagsSpelt(frame: seq<Byte>, at: nat, left: nat) returns (tags: seq<Tag>)
    requires SkipTags(frame, at, left).Some?
    ensures var r := SkipTags(frame, at, left).value;
            && at <= |frame| && |tags| <= left && r.0 < 0x1_0000
            && (forall i :: 0 <= i < |tags| ==> tags[i].Fits())
            && frame[at..] == TagBytes(tags, r.0) + r.1
    decreases left
  {
    var e := Be16(frame, at).value;
    PairSpells(frame, at);
    if left > 0 && IsTag(e) {
      var rest := TagsSpelt(frame, at + 4, left - 1);
      var t := Tag(e, frame[at + 2..at + 4]);
      tags := [t] + rest;
      var r := SkipTags(frame, at, left).value;
      OneMoreTag(t, rest, r.0);
      SplitAt(frame, at + 2, at + 4);
      Regroup(Two(e), t.tci, TagBytes(rest, r.0) + r.1);
      Regroup(Two(e) + t.tci, TagBytes(rest, r.0), r.1);
    } else {
      tags := [];
    }
  }

  lemma OneMoreTag(t: Tag, rest: seq<Tag>, ethertype: nat)
    requires t.Fits() && ethertype < 0x1_0000 && forall i :: 0 <= i < |rest| ==> rest[i].Fits()
    ensures forall i :: 0 <= i < |[t] + rest| ==> ([t] + rest)[i].Fits()
    ensures TagBytes([t] + rest, ethertype) == Two(t.tpid) + t.tci + TagBytes(rest, ethertype)
  {
    assert ([t] + rest)[1..] == rest;
  }

  /** The extension headers followed, from the octets they were read from. */
  lemma {:induction false} ChainSpelt(b: seq<Byte>, next: Byte, at: nat, left: nat) returns (xs: seq<Extension>)
    requires Walk(b, next, at, left).Some?
    requires Walk(b, next, at, left).value.1 <= |b| && !IsExtension(Walk(b, next, at, left).value.0)
    ensures var end := Walk(b, next, at, left).value;
            && at <= end.1 && end.0 < 256 && |xs| <= left
            && (forall i :: 0 <= i < |xs| ==> xs[i].Fits())
            && Numbers(xs, end.0) == next
            && b[at..end.1] == ExtensionBytes(xs, end.0)
    decreases left
  {
    var end := Walk(b, next, at, left).value;
    if IsExtension(next) {
      var to := if IsOptions(next) then at + OptionsLength(b[at + 1]) else at + 8;
      WalkAdvances(b, b[at], to, left - 1);
      var x := HeaderSpelt(b, next, at, to);
      var rest := ChainSpelt(b, b[at], to, left - 1);
      xs := [x] + rest;
      OneMoreHeader(x, rest, end.0);
      SliceAt(b, at, to, end.1);
    } else {
      xs := [];
    }
  }

  lemma SliceAt(b: seq<Byte>, i: nat, j: nat, k: nat)
    requires i <= j <= k <= |b|
    ensures b[i..k] == b[i..j] + b[j..k]
  {
  }

  lemma HeaderSpelt(b: seq<Byte>, next: Byte, at: nat, to: nat) returns (x: Extension)
    requires IsExtension(next) && at + 1 < |b| && to <= |b|
    requires to == if IsOptions(next) then at + OptionsLength(b[at + 1]) else at + 8
    ensures x.Fits() && x.Number() == next && x.Bytes(b[at]) == b[at..to]
  {
    x := if IsOptions(next) then Options(next, b[at + 1], b[at + 2..to]) else Fragment(b[at + 1..to]);
  }

  lemma OneMoreHeader(x: Extension, rest: seq<Extension>, proto: Byte)
    requires x.Fits() && forall i :: 0 <= i < |rest| ==> rest[i].Fits()
    ensures forall i :: 0 <= i < |[x] + rest| ==> ([x] + rest)[i].Fits()
    ensures Numbers([x] + rest, proto) == x.Number()
    ensures ExtensionBytes([x] + rest, proto) == x.Bytes(Numbers(rest, proto)) + ExtensionBytes(rest, proto)
  {
    assert ([x] + rest)[1..] == rest;
  }

  lemma FourFields(b: seq<Byte>)
    requires Ipv4(b).Some?
    ensures var ihl := b[0] % 16 * 4;
            && 20 <= ihl <= 60 && ihl <= |b| && b[0] / 16 == 4
            && Pair(b[6], b[7]) % 0x2000 == 0
            && Ipv4(b).value == Net(V4(b[12..16]), V4(b[16..20]), b[9], b[ihl..])
  {
  }

  /** An unfragmented IPv4 header of `ihl` octets, from the octets of `b`. */
  function FourOf(b: seq<Byte>, ihl: nat): Network
    requires 20 <= ihl <= |b|
  {
    Four(b[1..6], Pair(b[6], b[7]) / 0x2000, 0, b[8], b[9], b[10..12], b[12..16], b[16..20], b[20..ihl])
  }

  lemma FirstOctet(v: Byte, ihl: nat)
    requires v / 16 == 4 && ihl == v % 16 * 4 && ihl >= 20
    ensures (ihl - 20) % 4 == 0 && 64 + 5 + (ihl - 20) / 4 == v
  {
    assert ihl - 20 == 4 * (v - 69);
  }

  lemma Unfragmented(high: Byte, low: Byte)
    requires Pair(high, low) % 0x2000 == 0
    ensures Pair(high, low) / 0x2000 < 8
    ensures Two(Pair(high, low) / 0x2000 * 0x2000) == [high, low]
  {
    assert Pair(high, low) / 0x2000 * 0x2000 == Pair(high, low);
  }

  lemma TenOctets(b: seq<Byte>)
    requires |b| >= 10
    ensures b[..10] == [b[0]] + b[1..6] + [b[6], b[7]] + [b[8], b[9]]
  {
  }

  lemma FourFits(b: seq<Byte>, ihl: nat)
    requires 20 <= ihl <= |b| && ihl <= 60 && b[0] / 16 == 4 && ihl == b[0] % 16 * 4
    requires Pair(b[6], b[7]) % 0x2000 == 0
    ensures FourOf(b, ihl).Fits()
  {
    FirstOctet(b[0], ihl);
    Unfragmented(b[6], b[7]);
  }

  lemma HeadFromFields(net: Network, tos: seq<Byte>, first: Byte, frag: seq<Byte>)
    requires net.Four? && net.Fits() && net.tosLengthId == tos
    requires 64 + 5 + |net.options| / 4 == first && Two(net.flags * 0x2000 + net.offset) == frag
    ensures FourHead(net) == [first] + tos + frag + [net.ttl, net.proto]
  {
  }

  lemma FourHeadSpelt(b: seq<Byte>, ihl: nat)
    requires 20 <= ihl <= |b| && ihl <= 60 && b[0] / 16 == 4 && ihl == b[0] % 16 * 4
    requires Pair(b[6], b[7]) % 0x2000 == 0
    ensures FourOf(b, ihl).Fits() && FourHead(FourOf(b, ihl)) == b[..10]
  {
    FourFits(b, ihl);
    FirstOctet(b[0], ihl);
    Unfragmented(b[6], b[7]);
    HeadFromFields(FourOf(b, ihl), b[1..6], b[0], [b[6], b[7]]);
    TenOctets(b);
  }

  lemma FourParts(b: seq<Byte>, ihl: nat)
    requires 20 <= ihl <= |b|
    ensures b == b[..10] + (b[10..12] + b[12..16] + b[16..20] + b[20..ihl] + b[ihl..])
  {
  }

  /** The IPv4 header read, from its octets. */
  lemma FourSpelt(b: seq<Byte>) returns (net: Network)
    requires Ipv4(b).Some?
    ensures net.Four? && net.Fits() && net.offset == 0
    ensures Ipv4(b).value.src == V4(net.src) && Ipv4(b).value.dst == V4(net.dst) && Ipv4(b).value.proto == net.proto
    ensures b == NetworkBytes(net, Ipv4(b).value.payload)
  {
    FourFields(b);
    var ihl := b[0] % 16 * 4;
    net := FourOf(b, ihl);
    FourHeadSpelt(b, ihl);
    FourParts(b, ihl);
  }

  lemma SixFields(b: seq<Byte>)
    requires Ipv6Of(b).Some?
    ensures |b| >= 40 && b[0] / 16 == 6 && Walk(b, b[6], 40, MAX_EXTENSIONS).Some?
    ensures var end := Walk(b, b[6], 40, MAX_EXTENSIONS).value;
            end.1 <= |b| && Ipv6Of(b).value == Net(V6(b[8..24]), V6(b[24..40]), end.0, b[end.1..])
  {
  }

  /** An IPv6 header before the chain `xs`, from the octets of `b`. */
  function SixOf(b: seq<Byte>, proto: Byte, xs: seq<Extension>): Network
    requires |b| >= 40
  {
    Six(b[0] % 16, b[1..4], b[4..6], b[7], proto, b[8..24], b[24..40], xs)
  }

  lemma SixHeadSpelt(b: seq<Byte>, proto: Byte, xs: seq<Extension>)
    requires |b| >= 40 && b[0] / 16 == 6 && !IsExtension(proto)
    requires (forall i :: 0 <= i < |xs| ==> xs[i].Fits()) && Numbers(xs, proto) == b[6]
    ensures SixOf(b, proto, xs).Fits() && SixHead(SixOf(b, proto, xs)) == b[..8]
  {
  }

  lemma SixParts(b: seq<Byte>, end: nat)
    requires 40 <= end <= |b|
    ensures b == b[..8] + b[8..24] + b[24..40] + b[40..end] + b[end..]
  {
  }

  /** The IPv6 header and its chain, from their octets. */
  lemma SixSpelt(b: seq<Byte>) returns (net: Network)
    requires Ipv6Of(b).Some? && !IsExtension(Ipv6Of(b).value.proto)
    ensures net.Six? && net.Fits() && |net.extensions| <= MAX_EXTENSIONS
    ensures Ipv6Of(b).value.src == V6(net.src) && Ipv6Of(b).value.dst == V6(net.dst) && Ipv6Of(b).value.proto == net.proto
    ensures b == NetworkBytes(net, Ipv6Of(b).value.payload)
  {
    SixFields(b);
    var end := Walk(b, b[6], 40, MAX_EXTENSIONS).value;
    var xs := ChainSpelt(b, b[6], 40, MAX_EXTENSIONS);
    net := SixOf(b, end.0, xs);
    SixHeadSpelt(b, end.0, xs);
    SixParts(b, end.1);
  }

  lemma NetSpelt(e: (nat, seq<Byte>)) returns (net: Network)
    requires (e.0 == IPV4 && Ipv4(e.1).Some?) || (e.0 == IPV6 && Ipv6Of(e.1).Some?)
    requires var n := if e.0 == IPV4 then Ipv4(e.1).value else Ipv6Of(e.1).value;
             n.proto == UDP
    ensures net.Fits() && net.proto == UDP && e.0 == if net.Four? then IPV4 else IPV6
    ensures (net.Four? ==> net.offset == 0) && (net.Six? ==> |net.extensions| <= MAX_EXTENSIONS)
    ensures var n := if e.0 == IPV4 then Ipv4(e.1).value else Ipv6Of(e.1).value;
            e.1 == NetworkBytes(net, n.payload)
  {
    if e.0 == IPV4 {
      net := FourSpelt(e.1);
    } else {
      net := SixSpelt(e.1);
    }
  }

  lemma Dhcp4Parts(body: seq<Byte>)
    requires |body| >= 28
    ensures body == [body[0]] + body[1..4] + body[4..8] + body[8..24] + body[24..28] + body[28..]
  {
  }

  lemma Dhcp6Parts(body: seq<Byte>)
    requires |body| >= 4
    ensures body == [body[0]] + body[1..4] + body[4..]
  {
  }

  /** Every payload is some message's, whatever the ports. */
  function MessageOf(sport: nat, dport: nat, body: seq<Byte>): (m: Message) {
    if sport == TFTP || dport == TFTP then
      if |body| < 2 then Short(body) else Tftp(Pair(body[0], body[1]), body[2..])
    else if IsDhcp4(sport, dport) then
      if |body| < 28 then Short(body)
      else Dhcp4(body[0], body[1..4], body[4..8], body[8..24], body[24..28], body[28..])
    else if IsDhcp6(sport, dport) then
      if |body| < 4 then Short(body) else Dhcp6(body[0], body[1..4], body[4..])
    else Other(body)
  }

  lemma MessageSpelt(sport: nat, dport: nat, body: seq<Byte>)
    ensures MessageOf(sport, dport, body).Fits(sport, dport) && MessageOf(sport, dport, body).Bytes() == body
  {
    match MessageOf(sport, dport, body) {
      case Dhcp4(_, _, _, _, _, _) => Dhcp4Parts(body);
      case Dhcp6(_, _, _) => Dhcp6Parts(body);
      case Tftp(_, _) => PairSpells(body, 0);
      case Short(_) =>
      case Other(_) =>
    }
  }

  /** The datagram's head as it was, or with the missing end of its checksum made up. */
  function ChecksumOf(p: seq<Byte>): (c: seq<Byte>)
    requires |p| >= 6
    ensures |c| == 2
  {
    if |p| >= 8 then p[6..8] else if |p| == 7 then [p[6], 0] else [0, 0]
  }

  lemma UdpSpelt(p: seq<Byte>, f: Frame)
    requires Udp(p).Some? && f.Fits()
    requires f.sport == Udp(p).value.sport && f.dport == Udp(p).value.dport && f.length == Udp(p).value.len + 8
    requires f.checksum == ChecksumOf(p) && f.message.Bytes() == Udp(p).value.body
    ensures DatagramShown(f, p)
  {
    var u, n := UdpBytes(f), Min(|p|, 8);
    PairSpells(p, 0);
    PairSpells(p, 2);
    PairSpells(p, 4);
    assert u[..n] == p[..n];
    if |p| >= 8 {
      assert u[8..] == p[8..];
      assert u == u[..8] + u[8..] && p == p[..8] + p[8..];
    }
  }

  /** Whatever the reader recognises is the octets of a readable frame. */
  lemma ReadIsBuilt(b: seq<Byte>) returns (f: Frame)
    requires ReadOf(b).Some?
    ensures Shows(b, f) && Readable(f)
  {
    var e, p, d := EthernetOf(b).value, NetOf(b).value.payload, DatagramOf(b).value;
    var tags := TagsSpelt(b, 12, MAX_TAGS);
    var net := NetSpelt(e);
    PairSpells(p, 0);
    PairSpells(p, 2);
    PairSpells(p, 4);
    MessageSpelt(d.sport, d.dport, d.body);
    f := Frame(b[..12], tags, net, d.sport, d.dport, d.len + 8, ChecksumOf(p), MessageOf(d.sport, d.dport, d.body));
    assert b == b[..12] + b[12..];
    Regroup(b[..12], TagBytes(tags, e.0), e.1);
    assert b == Carrying(f, p);
    UdpSpelt(p, f);
    ShownIsShown(f, p);
    RecognisedIsReadable(f);
  }

  lemma ShownIsShown(f: Frame, shown: seq<Byte>)
    requires f.Fits() && DatagramShown(f, shown)
    ensures Shows(Carrying(f, shown), f)
  {
    PayloadComesLast(f, shown);
    PayloadComesLast(f, UdpBytes(f));
  }

  lemma RecognisedIsReadable(f: Frame)
    requires f.Fits() && |f.tags| <= MAX_TAGS && f.net.proto == UDP && f.length >= 8
    requires (f.net.Four? ==> f.net.offset == 0) && (f.net.Six? ==> |f.net.extensions| <= MAX_EXTENSIONS)
    requires Classify(f.sport, f.dport, f.message.Bytes()).Some?
    ensures Readable(f)
  {
    MessageReads(f.message, f.sport, f.dport);
  }

  /**
   The reader says `s` of some octets exactly when they are those of a readable frame that
   means `s`. So a header length under five words, a wrong version, a cut address, a chain
   or a header that runs past the capture, and everything else no frame has, is refused.
   */
  lemma ReadExactly(b: seq<Byte>, s: Seen)
    ensures ReadOf(b) == Some(s) <==> exists f :: Shows(b, f) && Readable(f) && Meaning(f) == s
  {
    if ReadOf(b) == Some(s) {
      var f := ReadIsBuilt(b);
      ReadUndoesCut(b, f);
    }
    if f :| Shows(b, f) && Readable(f) && Meaning(f) == s {
      ReadUndoesCut(b, f);
    }
  }
}
