/** A capture cut short by its snap length says nothing about a frame that the whole frame would deny. */
module Truncation {
  import opened Common
  import opened Packet

  lemma {:induction false} TagsOfPrefix(p: seq<Byte>, f: seq<Byte>, at: nat, left: nat)
    requires p <= f && SkipTags(p, at, left).Some?
    ensures SkipTags(f, at, left).Some?
    ensures SkipTags(f, at, left).value.0 == SkipTags(p, at, left).value.0
    ensures SkipTags(p, at, left).value.1 <= SkipTags(f, at, left).value.1
    decreases left
  {
    assert f[..|p|] == p;
    if left > 0 && IsTag(Be16(p, at).value) {
      TagsOfPrefix(p, f, at + 4, left - 1);
    }
  }

  lemma {:induction false} WalkOfPrefix(p: seq<Byte>, f: seq<Byte>, next: nat, at: nat, left: nat)
    requires p <= f && Walk(p, next, at, left).Some?
    ensures Walk(f, next, at, left) == Walk(p, next, at, left)
    decreases left
  {
    assert f[..|p|] == p;
    if left > 0 && IsExtension(next) {
      WalkOfPrefix(p, f, p[at], if IsOptions(next) then at + OptionsLength(p[at + 1]) else at + 8, left - 1);
    }
  }

  /** `y` is `x` with at least as much payload visible. */
  ghost predicate SameNet(x: Net, y: Net) {
    x.src == y.src && x.dst == y.dst && x.proto == y.proto && x.payload <= y.payload
  }

  lemma Ipv4OfPrefix(p: seq<Byte>, f: seq<Byte>)
    requires p <= f && Ipv4(p).Some?
    ensures Ipv4(f).Some? && SameNet(Ipv4(p).value, Ipv4(f).value)
  {
    assert f[..|p|] == p;
    assert p[12..16] == f[12..16] && p[16..20] == f[16..20];
  }

  lemma Ipv6OfPrefix(p: seq<Byte>, f: seq<Byte>)
    requires p <= f && Ipv6Of(p).Some?
    ensures Ipv6Of(f).Some? && SameNet(Ipv6Of(p).value, Ipv6Of(f).value)
  {
    assert f[..|p|] == p;
    assert p[8..24] == f[8..24] && p[24..40] == f[24..40];
    WalkOfPrefix(p, f, p[6], 40, MAX_EXTENSIONS);
  }

  lemma NetOfPrefix(p: seq<Byte>, f: seq<Byte>)
    requires p <= f && NetOf(p).Some?
    ensures NetOf(f).Some? && SameNet(NetOf(p).value, NetOf(f).value)
  {
    TagsOfPrefix(p, f, 12, MAX_TAGS);
    var e, whole := EthernetOf(p).value, EthernetOf(f).value;
    if e.0 == IPV4 {
      Ipv4OfPrefix(e.1, whole.1);
    } else {
      Ipv6OfPrefix(e.1, whole.1);
    }
  }

  lemma UdpOfPrefix(p: seq<Byte>, f: seq<Byte>)
    requires p <= f && Udp(p).Some?
    ensures Udp(f).Some? && Udp(f).value == Udp(p).value.(body := Udp(f).value.body)
    ensures Udp(p).value.body <= Udp(f).value.body
  {
    assert forall i :: 0 <= i < |p| ==> f[i] == p[i];
    if |p| >= 8 {
      assert f[8..][..|p| - 8] == p[8..];
    }
  }

  lemma DatagramOfPrefix(p: seq<Byte>, f: seq<Byte>)
    requires p <= f && DatagramOf(p).Some?
    ensures DatagramOf(f).Some?
    ensures DatagramOf(f).value == DatagramOf(p).value.(body := DatagramOf(f).value.body)
    ensures DatagramOf(p).value.body <= DatagramOf(f).value.body
  {
    NetOfPrefix(p, f);
    UdpOfPrefix(NetOf(p).value.payload, NetOf(f).value.payload);
  }

  /** Cutting a payload short can change the kind only when nothing of it is left. */
  lemma KindOfPrefix(sport: nat, dport: nat, b: seq<Byte>, whole: seq<Byte>)
    requires b <= whole && Classify(sport, dport, b).Some?
    ensures Classify(sport, dport, whole).Some?
    ensures Classify(sport, dport, b) == Classify(sport, dport, whole)
       <==> b != [] || Classify(sport, dport, whole).value == PortDirection(sport, dport)
  {
    if b != [] {
      assert whole[0] == b[0];
      if |b| > 1 {
        assert whole[1] == b[1];
      }
    }
  }

  lemma IdsOfPrefix(sport: nat, dport: nat, b: seq<Byte>, whole: seq<Byte>)
    requires b <= whole
    ensures Giaddr(sport, dport, b).Some? ==> Giaddr(sport, dport, whole) == Giaddr(sport, dport, b)
    ensures Xid(sport, dport, b).Some? ==> Xid(sport, dport, whole) == Xid(sport, dport, b)
    ensures |b| >= 28 ==> Giaddr(sport, dport, whole) == Giaddr(sport, dport, b)
    ensures |b| >= 28 ==> Xid(sport, dport, whole) == Xid(sport, dport, b)
  {
    SliceOfPrefix(b, whole, 24, 4);
    SliceOfPrefix(b, whole, 4, 4);
    SliceOfPrefix(b, whole, 1, 3);
  }

  /**
   What a truncated frame `p` is read as, the whole frame `f` is read as too. Addresses,
   ports and length always agree; the kind agrees exactly when `p` shows a payload octet or
   the ports guessed right; ids seen in `p` stand; and 28 payload octets settle everything.
   */
  lemma ReadOfPrefix(p: seq<Byte>, f: seq<Byte>)
    requires p <= f && ReadOf(p).Some?
    ensures ReadOf(f).Some?
    ensures var s, t, shown := ReadOf(p).value, ReadOf(f).value, DatagramOf(p).value.body;
            && s.src == t.src && s.dst == t.dst
            && s.sport == t.sport && s.dport == t.dport && s.bytes == t.bytes
            && (s.kind == t.kind <==> shown != [] || t.kind == PortDirection(t.sport, t.dport))
            && (s.gi.Some? ==> t.gi == s.gi)
            && (s.xid.Some? ==> t.xid == s.xid)
            && (|shown| >= 28 ==> s == t)
  {
    NetOfPrefix(p, f);
    DatagramOfPrefix(p, f);
    var x, y := DatagramOf(p).value, DatagramOf(f).value;
    KindOfPrefix(x.sport, x.dport, x.body, y.body);
    IdsOfPrefix(x.sport, x.dport, x.body, y.body);
  }

  lemma SliceOfPrefix(p: seq<Byte>, f: seq<Byte>, at: nat, n: nat)
    requires p <= f
    ensures Slice(p, at, n).Some? ==> Slice(f, at, n) == Slice(p, at, n)
  {
    if at + n <= |p| {
      assert p[at..at + n] == f[at..at + n];
    }
  }
}
