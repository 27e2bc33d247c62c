/** What the flow table says: which flows are listed, and which of their packets their counts hold. */
module FlowHistory {
  import opened Common
  import opened Packet
  import opened SlidingWindow
  import opened WindowHistory

  predicate IsOf(e: Event, f: Flow) {
    e.Add? && e.flow == f
  }

  /** When the flow was last seen. */
  ghost function LastTime(h: seq<Event>, f: Flow): Option<nat> {
    if h == [] then None
    else if IsOf(Last(h), f) then Some(Last(h).now)
    else LastTime(Front(h), f)
  }

  /** Packet `i` is held by its flow's counts: no expiry since has found the flow gone quiet. */
  ghost predicate Held(w: nat, h: seq<Event>, f: Flow, i: nat)
    requires i < |h|
  {
    && IsOf(h[i], f)
    && forall j | i < j < |h| :: StillOn(w, h[..j], h[j], f)
  }

  /** The flow had been seen recently enough to outlive the expiry `e` performs. */
  ghost predicate StillOn(w: nat, p: seq<Event>, e: Event, f: Flow) {
    LastTime(p, f).Some? && LastTime(p, f).value > Cutoff(w, e.now)
  }

  ghost function CountHeld(w: nat, h: seq<Event>, f: Flow, k: Kind, n: nat): nat
    requires n <= |h|
  {
    if n == 0 then 0
    else
      CountHeld(w, h, f, k, n - 1)
      + if Held(w, h, f, n - 1) && h[n - 1].kind == k then 1 else 0
  }

  ghost predicate Listed(w: nat, h: seq<Event>, f: Flow) {
    exists i :: 0 <= i < |h| && Held(w, h, f, i)
  }

  lemma HeldAppend(w: nat, p: seq<Event>, e: Event, f: Flow, i: nat)
    requires i < |p|
    ensures Held(w, p + [e], f, i) <==> Held(w, p, f, i) && StillOn(w, p, e, f)
  {
    var h := p + [e];
    assert h[..|p|] == p;
    assert forall j :: i < j < |p| ==> h[..j] == p[..j] && h[j] == p[j];
  }

  lemma {:induction false} CountHeldAppend(w: nat, p: seq<Event>, e: Event, f: Flow, k: Kind, n: nat)
    requires n <= |p|
    ensures CountHeld(w, p + [e], f, k, n) == if StillOn(w, p, e, f) then CountHeld(w, p, f, k, n) else 0
  {
    if n > 0 {
      CountHeldAppend(w, p, e, f, k, n - 1);
      HeldAppend(w, p, e, f, n - 1);
    }
  }

  lemma {:induction false} NoneHeld(w: nat, h: seq<Event>, f: Flow, k: Kind, n: nat)
    requires n <= |h| && !Listed(w, h, f)
    ensures CountHeld(w, h, f, k, n) == 0
  {
    if n > 0 {
      NoneHeld(w, h, f, k, n - 1);
      assert !Held(w, h, f, n - 1);
    }
  }

  lemma ListedAppend(w: nat, p: seq<Event>, e: Event, f: Flow)
    ensures Listed(w, p + [e], f) <==> IsOf(e, f) || (Listed(w, p, f) && StillOn(w, p, e, f))
  {
    var h := p + [e];
    if Listed(w, h, f) {
      var i :| 0 <= i < |h| && Held(w, h, f, i);
      if i < |p| {
        HeldAppend(w, p, e, f, i);
      }
    }
    if IsOf(e, f) {
      assert Held(w, h, f, |p|);
    } else if Listed(w, p, f) && StillOn(w, p, e, f) {
      var i :| 0 <= i < |p| && Held(w, p, f, i);
      HeldAppend(w, p, e, f, i);
    }
  }

  /** The table's entry for a flow, whatever the clock did. */
  ghost predicate FlowTells(w: nat, h: seq<Event>, f: Flow, flows: map<Flow, Dest>) {
    && (f in flows <==> Listed(w, h, f))
    && (f in flows ==> LastTime(h, f) == Some(flows[f].last))
  }

  lemma StepFlow(w: nat, t: Tally, e: Event, f: Flow)
    ensures var kept := f in t.flows && t.flows[f].last > Cutoff(w, e.now);
            && (f in Step(w, t, e).flows <==> IsOf(e, f) || kept)
            && (!IsOf(e, f) && kept ==> Step(w, t, e).flows[f] == t.flows[f])
            && (IsOf(e, f) ==>
                  Step(w, t, e).flows[f] == Dest((if kept then t.flows[f].counts else ZERO).Bump(e.kind), e.now))
  {
  }

  lemma {:induction false} TableListsFlows(w: nat, h: seq<Event>, f: Flow)
    ensures FlowTells(w, h, f, Run(w, h).flows)
  {
    if h != [] {
      var p, e := Front(h), Last(h);
      assert h == p + [e];
      TableListsFlows(w, p, f);
      ListedAppend(w, p, e, f);
      StepFlow(w, Run(w, p), e, f);
    }
  }

  /** A flow is listed, and counts what it does, for exactly the packets nothing has forgotten. */
  lemma {:induction false} FlowCountsHeld(w: nat, h: seq<Event>, f: Flow, k: Kind)
    ensures f in Run(w, h).flows <==> Listed(w, h, f)
    ensures f in Run(w, h).flows ==> Run(w, h).flows[f].counts.Of(k) == CountHeld(w, h, f, k, |h|)
  {
    TableListsFlows(w, h, f);
    if h != [] {
      var p, e := Front(h), Last(h);
      assert h == p + [e];
      FlowCountsHeld(w, p, f, k);
      TableListsFlows(w, p, f);
      FlowCountStep(w, p, e, f, k, Run(w, p));
    }
  }

  lemma FlowCountStep(w: nat, p: seq<Event>, e: Event, f: Flow, k: Kind, t: Tally)
    requires FlowTells(w, p, f, t.flows)
    requires f in t.flows ==> t.flows[f].counts.Of(k) == CountHeld(w, p, f, k, |p|)
    ensures f in Step(w, t, e).flows ==>
      Step(w, t, e).flows[f].counts.Of(k) == CountHeld(w, p + [e], f, k, |p + [e]|)
  {
    var h := p + [e];
    StepFlow(w, t, e, f);
    CountHeldAppend(w, p, e, f, k, |p|);
    if f !in t.flows {
      NoneHeld(w, p, f, k, |p|);
    }
    assert Held(w, h, f, |p|) <==> IsOf(e, f);
    BumpOf(if f in t.flows then t.flows[f].counts else ZERO, k);
  }

  lemma BumpOf(c: Counts, k: Kind)
    ensures forall kind :: c.Bump(kind).Of(k) == c.Of(k) + if kind == k then 1 else 0
    ensures forall kind :: ZERO.Bump(kind).Of(k) == if kind == k then 1 else 0
  {
  }

  // With a forward clock: a flow's counts are its unbroken tail.

  /** From packet `i` on, the flow never paused for `w` seconds, and has not yet. */
  ghost predicate Unbroken(w: nat, h: seq<Event>, f: Flow, i: nat)
    requires i < |h| && IsOf(h[i], f)
  {
    && (forall b | i < b < |h| && IsOf(h[b], f) ::
          LastTime(h[..b], f).Some? && h[b].now < LastTime(h[..b], f).value + w)
    && LastTime(h, f).Some? && Last(h).now < LastTime(h, f).value + w
  }

  lemma {:induction false} SeenSince(h: seq<Event>, f: Flow, i: nat, j: nat)
    requires i < j <= |h| && IsOf(h[i], f) && WindowHistory.Forward(h)
    ensures LastTime(h[..j], f).Some? && h[i].now <= LastTime(h[..j], f).value
    ensures LastTime(h[..j], f).value <= h[j - 1].now
    decreases j
  {
    assert Front(h[..j]) == h[..j - 1];
    if !IsOf(h[j - 1], f) {
      SeenSince(h, f, i, j - 1);
    }
  }

  /** No packet of the flow among events `j` to `n`: it was last seen when it was last seen. */
  lemma {:induction false} QuietStretch(h: seq<Event>, f: Flow, j: nat, n: nat)
    requires j <= n <= |h|
    requires forall m :: j <= m < n ==> !IsOf(h[m], f)
    ensures LastTime(h[..n], f) == LastTime(h[..j], f)
    decreases n
  {
    if j < n {
      assert Front(h[..n]) == h[..n - 1];
      QuietStretch(h, f, j, n - 1);
    }
  }

  /** The flow's next packet from `j` on, or the end of the run. */
  ghost function NextOf(h: seq<Event>, f: Flow, j: nat): (b: nat)
    requires j <= |h|
    ensures j <= b <= |h| && (b < |h| ==> IsOf(h[b], f))
    ensures forall m :: j <= m < b ==> !IsOf(h[m], f)
    decreases |h| - j
  {
    if j == |h| || IsOf(h[j], f) then j else NextOf(h, f, j + 1)
  }

  /** A packet is held exactly when its flow has not paused for a whole window since. */
  lemma HeldIsUnbroken(w: nat, h: seq<Event>, f: Flow, i: nat)
    requires WindowHistory.Forward(h) && w >= 1 && i < |h| && IsOf(h[i], f)
    requires forall m :: 0 <= m < |h| ==> h[m].now > 0
    ensures Held(w, h, f, i) <==> Unbroken(w, h, f, i)
  {
    if Held(w, h, f, i) {
      HeldImpliesUnbroken(w, h, f, i);
    }
    if Unbroken(w, h, f, i) {
      forall j | i < j < |h|
        ensures StillOn(w, h[..j], h[j], f)
      {
        UnbrokenStaysOn(w, h, f, i, j);
      }
    }
  }

  lemma HeldImpliesUnbroken(w: nat, h: seq<Event>, f: Flow, i: nat)
    requires WindowHistory.Forward(h) && w >= 1 && i < |h| && Held(w, h, f, i)
    ensures Unbroken(w, h, f, i)
  {
    forall b | i < b < |h| && IsOf(h[b], f)
      ensures LastTime(h[..b], f).Some? && h[b].now < LastTime(h[..b], f).value + w
    {
      assert StillOn(w, h[..b], h[b], f);
    }
    if !IsOf(Last(h), f) {
      assert StillOn(w, h[..|h| - 1], h[|h| - 1], f);
    }
  }

  lemma UnbrokenStaysOn(w: nat, h: seq<Event>, f: Flow, i: nat, j: nat)
    requires WindowHistory.Forward(h) && i < j < |h| && IsOf(h[i], f) && Unbroken(w, h, f, i)
    requires forall m :: 0 <= m < |h| ==> h[m].now > 0
    ensures StillOn(w, h[..j], h[j], f)
  {
    SeenSince(h, f, i, j);
    var b := NextOf(h, f, j);
    QuietStretch(h, f, j, b);
    if b < |h| {
      assert h[j].now <= h[b].now;
    } else {
      assert h[..b] == h;
      assert h[j].now <= Last(h).now;
    }
  }

  /** A flow is listed exactly when it had a packet within the window. */
  lemma ListedIsRecent(w: nat, h: seq<Event>, f: Flow)
    requires WindowHistory.Forward(h) && w >= 1 && h != []
    requires forall m :: 0 <= m < |h| ==> h[m].now > 0
    ensures f in Run(w, h).flows <==> exists i :: 0 <= i < |h| && IsOf(h[i], f) && Last(h).now < h[i].now + w
  {
    TableListsFlows(w, h, f);
    assert h[..|h|] == h;
    if Listed(w, h, f) {
      var i :| 0 <= i < |h| && Held(w, h, f, i);
      HeldIsUnbroken(w, h, f, i);
      var b := LastOfFlow(h, f, i, |h|);
    }
    if i :| 0 <= i < |h| && IsOf(h[i], f) && Last(h).now < h[i].now + w {
      SeenSince(h, f, i, |h|);
      var b := LastOfFlow(h, f, i, |h|);
      HeldIsUnbroken(w, h, f, b);
    }
  }

  lemma {:induction false} LastOfFlow(h: seq<Event>, f: Flow, i: nat, n: nat) returns (b: nat)
    requires i < n <= |h| && IsOf(h[i], f)
    ensures i <= b < n && IsOf(h[b], f) && LastTime(h[..n], f) == Some(h[b].now)
    ensures forall m :: b < m < n ==> !IsOf(h[m], f)
    decreases n
  {
    assert Front(h[..n]) == h[..n - 1];
    if IsOf(h[n - 1], f) {
      b := n - 1;
    } else {
      b := LastOfFlow(h, f, i, n - 1);
    }
  }

  /** Of a flow's packets, those in the last `w` seconds. */
  ghost function CountRecentOf(w: nat, h: seq<Event>, f: Flow, k: Kind, n: nat): nat
    requires n <= |h|
  {
    if n == 0 then 0
    else
      CountRecentOf(w, h, f, k, n - 1)
      + if IsOf(h[n - 1], f) && h[n - 1].kind == k && Last(h).now < h[n - 1].now + w then 1 else 0
  }

  lemma RecentIsHeld(w: nat, h: seq<Event>, f: Flow, i: nat)
    requires WindowHistory.Forward(h) && w >= 1 && i < |h| && IsOf(h[i], f)
    requires forall m :: 0 <= m < |h| ==> h[m].now > 0
    requires Last(h).now < h[i].now + w
    ensures Held(w, h, f, i)
  {
    forall j | i < j < |h|
      ensures StillOn(w, h[..j], h[j], f)
    {
      SeenSince(h, f, i, j);
      assert h[j].now <= Last(h).now;
    }
  }

  /** Every packet held is a recent one. */
  ghost predicate OnlyRecentHeld(w: nat, h: seq<Event>, f: Flow, k: Kind, n: nat)
    requires n <= |h|
  {
    forall i :: 0 <= i < n && Held(w, h, f, i) && h[i].kind == k ==> Last(h).now < h[i].now + w
  }

  lemma OneMoreHeld(w: nat, h: seq<Event>, f: Flow, k: Kind, n: nat)
    requires 0 < n <= |h|
    ensures OnlyRecentHeld(w, h, f, k, n) <==>
      OnlyRecentHeld(w, h, f, k, n - 1)
      && (Held(w, h, f, n - 1) && h[n - 1].kind == k ==> Last(h).now < h[n - 1].now + w)
  {
  }

  /** What one event adds to each of the two counts. */
  lemma OneMoreCounted(w: nat, h: seq<Event>, f: Flow, k: Kind, n: nat)
    requires WindowHistory.Forward(h) && w >= 1 && 0 < n <= |h|
    requires forall m :: 0 <= m < |h| ==> h[m].now > 0
    ensures var held := Held(w, h, f, n - 1) && h[n - 1].kind == k;
            var late := Last(h).now < h[n - 1].now + w;
            && CountHeld(w, h, f, k, n) == CountHeld(w, h, f, k, n - 1) + (if held then 1 else 0)
            && CountRecentOf(w, h, f, k, n) == CountRecentOf(w, h, f, k, n - 1) + (if held && late then 1 else 0)
  {
    if IsOf(h[n - 1], f) && Last(h).now < h[n - 1].now + w {
      RecentIsHeld(w, h, f, n - 1);
    }
  }

  lemma {:induction false} HeldAgainstRecent(w: nat, h: seq<Event>, f: Flow, k: Kind, n: nat)
    requires WindowHistory.Forward(h) && w >= 1 && n <= |h|
    requires forall m :: 0 <= m < |h| ==> h[m].now > 0
    ensures CountRecentOf(w, h, f, k, n) <= CountHeld(w, h, f, k, n)
    ensures CountRecentOf(w, h, f, k, n) == CountHeld(w, h, f, k, n) <==> OnlyRecentHeld(w, h, f, k, n)
  {
    if n > 0 {
      HeldAgainstRecent(w, h, f, k, n - 1);
      OneMoreCounted(w, h, f, k, n);
      OneMoreHeld(w, h, f, k, n);
    }
  }

  /**
   Flow counts are not windowed. A listed flow's count is never below its packets of the last
   `w` seconds, and equals them exactly when nothing older is held: when each of its packets
   that no full-window pause has cut off lies itself within the window.
   */
  lemma FlowHoldsItsWindow(w: nat, h: seq<Event>, f: Flow, k: Kind)
    requires WindowHistory.Forward(h) && w >= 1
    requires forall m :: 0 <= m < |h| ==> h[m].now > 0
    requires f in Run(w, h).flows
    ensures CountRecentOf(w, h, f, k, |h|) <= Run(w, h).flows[f].counts.Of(k)
    ensures Run(w, h).flows[f].counts.Of(k) == CountRecentOf(w, h, f, k, |h|)
       <==> forall i :: 0 <= i < |h| && IsOf(h[i], f) && Unbroken(w, h, f, i) && h[i].kind == k ==> Last(h).now < h[i].now + w
  {
    FlowCountsHeld(w, h, f, k);
    HeldAgainstRecent(w, h, f, k, |h|);
    forall i | 0 <= i < |h| && IsOf(h[i], f)
      ensures Held(w, h, f, i) <==> Unbroken(w, h, f, i)
    {
      HeldIsUnbroken(w, h, f, i);
    }
  }

  lemma AfterOnePacket(f: Flow)
    ensures Run(15, [Add(ClientRequest, f, 1)])
         == Tally([Bucket(1, ZERO.Bump(ClientRequest))], map[f := Dest(ZERO.Bump(ClientRequest), 1)], ZERO.Bump(ClientRequest))
  {
    var a := Add(ClientRequest, f, 1);
    RunAppend(15, [], a);
    assert [] + [a] == [a];
    assert Expired(Run(15, []), 0).flows == map[];
  }

  lemma AfterTwoPackets(f: Flow)
    ensures var t := Run(15, [Add(ClientRequest, f, 1), Add(ClientRequest, f, 10)]);
            && t.buckets == [Bucket(1, ZERO.Bump(ClientRequest)), Bucket(10, ZERO.Bump(ClientRequest))]
            && f in t.flows && t.flows[f] == Dest(Counts(2, 0, 0, 0), 10)
  {
    var a, b := Add(ClientRequest, f, 1), Add(ClientRequest, f, 10);
    AfterOnePacket(f);
    RunAppend(15, [a], b);
    assert [a] + [b] == [a, b];
    var one := Bucket(1, ZERO.Bump(ClientRequest));
    assert Retain([one], 0) == [one];
  }

  /** A flow that never pauses for a window counts packets the window has long dropped. */
  lemma FlowOutlivesTheWindow(f: Flow)
    ensures var t := Run(15, [Add(ClientRequest, f, 1), Add(ClientRequest, f, 10), Expire(20)]);
            && f in t.flows && t.flows[f].counts.requests == 2
            && SumBuckets(t.buckets).requests == 1
  {
    var a, b, x := Add(ClientRequest, f, 1), Add(ClientRequest, f, 10), Expire(20);
    AfterTwoPackets(f);
    RunAppend(15, [a, b], x);
    assert [a, b] + [x] == [a, b, x];
    LaterBucketStays(Bucket(1, ZERO.Bump(ClientRequest)), Bucket(10, ZERO.Bump(ClientRequest)), 5);
  }

  lemma LaterBucketStays(one: Bucket, two: Bucket, cutoff: nat)
    requires one.at <= cutoff < two.at
    ensures SumBuckets(Retain([one, two], cutoff)) == two.counts
  {
    assert Front([one, two]) == [one] && Front([one]) == [];
    assert Retain([one], cutoff) == [];
    assert Front([two]) == [];
  }
}
