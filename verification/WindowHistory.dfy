/** What the buckets and the flow table say about the plain list of packets they were shown. */
module WindowHistory {
  import opened Common
  import opened Packet
  import opened SlidingWindow

  /** Packet `i` has outlived every expiry performed since it was added. */
  ghost predicate Survives(w: nat, h: seq<Event>, i: nat)
    requires i < |h|
  {
    h[i].Add? && forall j :: i < j < |h| ==> h[i].now > Cutoff(w, h[j].now)
  }

  /** Of the first `n` events, the surviving packets of one kind later than second `c`. */
  ghost function CountSurviving(w: nat, h: seq<Event>, k: Kind, c: int, n: nat): nat
    requires n <= |h|
  {
    if n == 0 then 0
    else
      CountSurviving(w, h, k, c, n - 1)
      + if Survives(w, h, n - 1) && h[n - 1].kind == k && h[n - 1].now > c then 1 else 0
  }

  ghost function Above(buckets: seq<Bucket>, k: Kind, c: int): nat {
    if buckets == [] then 0
    else Above(Front(buckets), k, c) + if Last(buckets).at > c then Last(buckets).counts.Of(k) else 0
  }

  function Later(a: int, b: int): int {
    if a < b then b else a
  }

  lemma AboveSnoc(buckets: seq<Bucket>, b: Bucket, k: Kind, c: int)
    ensures Above(buckets + [b], k, c) == Above(buckets, k, c) + if b.at > c then b.counts.Of(k) else 0
  {
    assert Front(buckets + [b]) == buckets;
  }

  lemma {:induction false} AboveRetained(buckets: seq<Bucket>, k: Kind, c: int, d: nat)
    ensures Above(Retain(buckets, d), k, c) == Above(buckets, k, Later(c, d))
  {
    if buckets != [] {
      var p, b := Front(buckets), Last(buckets);
      AboveRetained(p, k, c, d);
      if b.at > d {
        AboveSnoc(Retain(p, d), b, k, c);
      } else {
        assert Retain(buckets, d) == Retain(p, d);
      }
    }
  }

  lemma AboveInBucket(buckets: seq<Bucket>, k: Kind, c: int, kind: Kind, now: nat)
    ensures Above(InBucket(buckets, kind, now), k, c) == Above(buckets, k, c) + if k == kind && now > c then 1 else 0
  {
    if buckets != [] && Last(buckets).at == now {
      var b := Last(buckets);
      AboveSnoc(Front(buckets), Bucket(now, b.counts.Bump(kind)), k, c);
      assert b.counts.Bump(kind).Of(k) == b.counts.Of(k) + if k == kind then 1 else 0;
    } else {
      AboveSnoc(buckets, Bucket(now, ZERO.Bump(kind)), k, c);
    }
  }

  lemma {:induction false} SurvivingAppend(w: nat, p: seq<Event>, e: Event, k: Kind, c: int, n: nat)
    requires n <= |p|
    ensures CountSurviving(w, p + [e], k, c, n) == CountSurviving(w, p, k, Later(c, Cutoff(w, e.now)), n)
  {
    if n > 0 {
      SurvivingAppend(w, p, e, k, c, n - 1);
      var h, i := p + [e], n - 1;
      assert h[|p|] == e && h[i] == p[i];
      assert forall j :: i < j < |p| ==> h[j] == p[j];
      assert Survives(w, h, i) <==> Survives(w, p, i) && p[i].now > Cutoff(w, e.now);
    }
  }

  lemma AboveAfterStep(w: nat, t: Tally, e: Event, k: Kind, c: int)
    ensures Above(Step(w, t, e).buckets, k, c) == Above(t.buckets, k, Later(c, Cutoff(w, e.now)))
      + if e.Add? && e.kind == k && e.now > c then 1 else 0
  {
    var d := Cutoff(w, e.now);
    AboveRetained(t.buckets, k, c, d);
    if e.Add? {
      AboveInBucket(Retain(t.buckets, d), k, c, e.kind, e.now);
    }
  }

  lemma SurvivingAfterStep(w: nat, p: seq<Event>, e: Event, k: Kind, c: int)
    ensures CountSurviving(w, p + [e], k, c, |p| + 1)
         == CountSurviving(w, p, k, Later(c, Cutoff(w, e.now)), |p|) + if e.Add? && e.kind == k && e.now > c then 1 else 0
  {
    SurvivingAppend(w, p, e, k, c, |p|);
    assert (p + [e])[|p|] == e;
  }

  lemma BucketsAppend(w: nat, p: seq<Event>, e: Event, k: Kind, c: int)
    requires var d := Later(c, Cutoff(w, e.now));
             Above(Run(w, p).buckets, k, d) == CountSurviving(w, p, k, d, |p|)
    ensures Above(Run(w, p + [e]).buckets, k, c) == CountSurviving(w, p + [e], k, c, |p| + 1)
  {
    RunAppend(w, p, e);
    AboveAfterStep(w, Run(w, p), e, k, c);
    SurvivingAfterStep(w, p, e, k, c);
  }

  /** The buckets hold exactly the packets no expiry since their own addition has passed. */
  lemma {:induction false} BucketsHoldSurvivors(w: nat, h: seq<Event>, k: Kind, c: int)
    ensures Above(Run(w, h).buckets, k, c) == CountSurviving(w, h, k, c, |h|)
  {
    if h != [] {
      var p, e := Front(h), Last(h);
      assert h == p + [e];
      BucketsHoldSurvivors(w, p, k, Later(c, Cutoff(w, e.now)));
      BucketsAppend(w, p, e, k, c);
    }
  }

  lemma {:induction false} SumIsAbove(buckets: seq<Bucket>, k: Kind)
    ensures SumBuckets(buckets).Of(k) == Above(buckets, k, -1)
  {
    if buckets != [] {
      SumIsAbove(Front(buckets), k);
    }
  }

  /** The window's count of a kind is the number of its surviving packets, whatever the clock did. */
  lemma WindowCountsSurvivors(w: nat, h: seq<Event>, k: Kind)
    ensures SumBuckets(Run(w, h).buckets).Of(k) == CountSurviving(w, h, k, -1, |h|)
  {
    SumIsAbove(Run(w, h).buckets, k);
    BucketsHoldSurvivors(w, h, k, -1);
  }

  // A clock that never runs backwards.

  ghost predicate Forward(h: seq<Event>) {
    forall i, j :: 0 <= i < j < |h| ==> h[i].now <= h[j].now
  }

  /** Packets of one kind, of the first `n` events, in the last `w` seconds before `now`. */
  ghost function CountRecent(w: nat, h: seq<Event>, k: Kind, now: nat, n: nat): nat
    requires n <= |h|
  {
    if n == 0 then 0
    else
      CountRecent(w, h, k, now, n - 1)
      + if h[n - 1].Add? && h[n - 1].kind == k && now < h[n - 1].now + w then 1 else 0
  }

  lemma {:induction false} SurvivingIsRecent(w: nat, h: seq<Event>, k: Kind, now: nat, n: nat)
    requires Forward(h) && h != [] && Last(h) == Expire(now) && n <= |h|
    requires forall i :: 0 <= i < |h| ==> h[i].now > 0
    ensures CountSurviving(w, h, k, -1, n) == CountRecent(w, h, k, now, n)
  {
    if n > 0 {
      SurvivingIsRecent(w, h, k, now, n - 1);
      var i := n - 1;
      if h[i].Add? {
        assert h[|h| - 1] == Expire(now);
        assert forall j :: i < j < |h| ==> h[j].now <= now;
        assert Survives(w, h, i) <==> h[i].now > Cutoff(w, now);
      }
    }
  }

  /** With a forward clock at positive seconds, the window is simply the last `w` seconds. */
  lemma WindowIsTheLastSeconds(w: nat, p: seq<Event>, k: Kind, now: nat)
    requires Forward(p + [Expire(now)])
    requires now > 0 && forall i :: 0 <= i < |p| ==> p[i].now > 0
    ensures SumBuckets(Run(w, p + [Expire(now)]).buckets).Of(k) == CountRecent(w, p + [Expire(now)], k, now, |p| + 1)
  {
    var h := p + [Expire(now)];
    WindowCountsSurvivors(w, h, k);
    SurvivingIsRecent(w, h, k, now, |h|);
  }

  ghost predicate Increasing(buckets: seq<Bucket>, low: nat, high: nat) {
    && (forall i :: 0 <= i < |buckets| ==> low <= buckets[i].at <= high)
    && (forall i, j :: 0 <= i < j < |buckets| ==> buckets[i].at < buckets[j].at)
  }

  lemma {:induction false} RetainedAreKept(buckets: seq<Bucket>, d: nat)
    ensures forall b :: b in Retain(buckets, d) ==> b in buckets && b.at > d
  {
    if buckets != [] {
      RetainedAreKept(Front(buckets), d);
    }
  }

  lemma RetainedBefore(buckets: seq<Bucket>, d: nat, last: nat)
    requires forall b :: b in buckets ==> b.at < last
    ensures forall i :: 0 <= i < |Retain(buckets, d)| ==> Retain(buckets, d)[i].at < last
  {
    RetainedAreKept(buckets, d);
    assert forall i :: 0 <= i < |Retain(buckets, d)| ==> Retain(buckets, d)[i] in Retain(buckets, d);
  }

  lemma {:induction false} RetainedIncrease(buckets: seq<Bucket>, low: nat, high: nat, d: nat)
    requires Increasing(buckets, low, high)
    ensures Increasing(Retain(buckets, d), low, high)
    ensures forall i :: 0 <= i < |Retain(buckets, d)| ==> Retain(buckets, d)[i].at > d
  {
    if buckets != [] {
      RetainedIncrease(Front(buckets), low, high, d);
      RetainedBefore(Front(buckets), d, Last(buckets).at);
    }
  }

  lemma {:induction false} IncreasingIsSpread(buckets: seq<Bucket>, low: nat, high: nat, i: nat)
    requires Increasing(buckets, low, high) && i < |buckets|
    ensures buckets[i].at >= low + i
  {
    if i > 0 {
      IncreasingIsSpread(buckets, low, high, i - 1);
    }
  }

  /** Seconds strictly increase along the buckets, and there are never more than the window has. */
  lemma {:induction false} BucketsStayFew(w: nat, h: seq<Event>, high: nat)
    requires Forward(h) && w >= 1
    requires forall i :: 0 <= i < |h| ==> h[i].now <= high
    ensures Increasing(Run(w, h).buckets, 0, high)
    ensures |Run(w, h).buckets| <= w
  {
    if h != [] {
      var p, e := Front(h), Last(h);
      assert forall i :: 0 <= i < |p| ==> p[i] == h[i] && h[i].now <= h[|p|].now;
      BucketsStayFew(w, p, e.now);
      StepStaysFew(w, Run(w, p), e);
    }
  }

  lemma StepStaysFew(w: nat, t: Tally, e: Event)
    requires w >= 1 && Increasing(t.buckets, 0, e.now)
    ensures Increasing(Step(w, t, e).buckets, 0, e.now)
    ensures |Step(w, t, e).buckets| <= w
  {
    var d := Cutoff(w, e.now);
    var r := Retain(t.buckets, d);
    RetainedIncrease(t.buckets, 0, e.now, d);
    RecentAreFew(r, w, e.now);
    if e.Add? {
      InBucketStaysFew(r, e.kind, w, e.now);
    }
  }

  lemma InBucketStaysFew(r: seq<Bucket>, k: Kind, w: nat, now: nat)
    requires w >= 1 && Increasing(r, 0, now)
    requires forall i :: 0 <= i < |r| ==> r[i].at > Cutoff(w, now)
    ensures Increasing(InBucket(r, k, now), 0, now) && |InBucket(r, k, now)| <= w
  {
    var b := InBucket(r, k, now);
    if now > 0 {
      assert forall i :: 0 <= i < |b| ==> b[i].at > Cutoff(w, now);
      RecentAreFew(b, w, now);
    } else {
      if r != [] {
        OneAtZero(r);
      }
    }
  }

  lemma OneAtZero(r: seq<Bucket>)
    requires r != [] && Increasing(r, 0, 0)
    ensures exists i :: 0 <= i < |r| && r[i].at == 0
  {
    assert r[0].at == 0;
  }

  lemma RecentAreFew(b: seq<Bucket>, w: nat, now: nat)
    requires w >= 1 && Increasing(b, 0, now)
    requires forall i :: 0 <= i < |b| ==> b[i].at > Cutoff(w, now)
    ensures |b| <= w
  {
    if b != [] {
      IncreasingIsSpread(b, Cutoff(w, now) + 1, now, |b| - 1);
    }
  }

  ghost function CountAdds(h: seq<Event>, k: Kind): nat {
    if h == [] then 0 else CountAdds(Front(h), k) + if Last(h).Add? && Last(h).kind == k then 1 else 0
  }

  lemma {:induction false} SurvivorsWereAdded(w: nat, h: seq<Event>, k: Kind, c: int, n: nat)
    requires n <= |h|
    ensures CountSurviving(w, h, k, c, n) <= CountAdds(h[..n], k)
  {
    if n > 0 {
      SurvivorsWereAdded(w, h, k, c, n - 1);
      assert Front(h[..n]) == h[..n - 1];
    }
  }

  lemma {:induction false} TotalsCountAll(w: nat, h: seq<Event>, k: Kind)
    ensures Run(w, h).total.Of(k) == CountAdds(h, k)
  {
    if h != [] {
      TotalsCountAll(w, Front(h), k);
    }
  }

  /** The running totals forget nothing, and no window holds more than they do. */
  lemma WindowWithinTotals(w: nat, h: seq<Event>, k: Kind)
    ensures SumBuckets(Run(w, h).buckets).Of(k) <= Run(w, h).total.Of(k) == CountAdds(h, k)
  {
    TotalsCountAll(w, h, k);
    WindowCountsSurvivors(w, h, k);
    SurvivorsWereAdded(w, h, k, -1, |h|);
    assert h[..|h|] == h;
  }
}
