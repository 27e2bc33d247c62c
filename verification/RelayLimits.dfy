/** How late a timed answer can be, and how answers compare with requests row by row. */
module RelayLimits {
  import opened Common
  import opened RelayTable
  import opened RelayHistory
  import opened RelayRows

  predicate HasMs(e: Event) {
    e.Request? || e.Reply?
  }

  /** The millisecond clock never ran backwards. */
  ghost predicate MsForward(h: seq<Event>) {
    forall i, j :: 0 <= i < j < |h| && HasMs(h[i]) && HasMs(h[j]) ==> h[i].ms <= h[j].ms
  }

  lemma {:induction false} SweptInThePast(h: seq<Event>, m: nat)
    requires forall i :: 0 <= i < |h| && HasMs(h[i]) ==> h[i].ms <= m
    ensures Run(h).sweptMs <= m
  {
    if h != [] {
      var p, e := Front(h), Last(h);
      assert h == p + [e];
      SweptInThePast(p, m);
      RunAppend(p, e);
      StepPending(Run(p), e);
    }
  }

  /** With a forward clock, no waiting request is 30 seconds older than the last sweep. */
  lemma {:induction false} WaitingIsYoungerThanSweep(h: seq<Event>)
    requires MsForward(h)
    ensures forall x :: x in Run(h).pending ==> Run(h).pending[x].atMs + 30_000 > Run(h).sweptMs
  {
    if h != [] {
      var p, e := Front(h), Last(h);
      assert h == p + [e];
      assert MsForward(p) by {
        assert forall i :: 0 <= i < |p| ==> p[i] == h[i];
      }
      WaitingIsYoungerThanSweep(p);
      RunAppend(p, e);
      StepPending(Run(p), e);
      if Numbered(e) {
        SweptInThePast(p, e.ms);
      }
    }
  }

  /** Right after a numbered request at `e.ms`, everything waiting is under 31 seconds old. */
  lemma FreshAfterRequest(p: seq<Event>, e: Event)
    requires Numbered(e) && MsForward(p + [e])
    ensures forall x :: x in Run(p + [e]).pending ==>
      Run(p + [e]).pending[x].atMs + 31_000 > e.ms
  {
    WaitingIsYoungerThanSweep(p + [e]);
    RunAppend(p, e);
    SweptLately(Run(p), e);
  }

  lemma SweptLately(t: Table, e: Event)
    requires Numbered(e)
    ensures Step(t, e).sweptMs + 1_000 > e.ms
  {
    StepPending(t, e);
  }

  lemma {:induction false} OnlyRequestsAdd(h: seq<Event>, mid: seq<Event>)
    requires forall i :: 0 <= i < |mid| ==> !Numbered(mid[i])
    ensures forall x :: x in Run(h + mid).pending ==> x in Run(h).pending && Run(h + mid).pending[x] == Run(h).pending[x]
  {
    if mid == [] {
      assert h + mid == h;
    } else {
      var m, e := Front(mid), Last(mid);
      OnlyRequestsAdd(h, m);
      assert h + mid == (h + m) + [e];
      RunAppend(h + m, e);
      StepPending(Run(h + m), e);
    }
  }

  /** An answer is timed below its distance from the last numbered request, plus 31 seconds. */
  lemma LatencyBound(p: seq<Event>, e: Event, mid: seq<Event>, reply: Event)
    requires Numbered(e) && reply.Reply?
    requires MsForward(p + [e]) && e.ms <= reply.ms
    requires forall i :: 0 <= i < |mid| ==> !Numbered(mid[i])
    ensures var took := ReadingOf(p + [e] + mid, reply, Latency);
            took.Some? ==> took.value < (reply.ms - e.ms) + 31_000
  {
    var h := p + [e];
    FreshAfterRequest(p, e);
    OnlyRequestsAdd(h, mid);
    AskedAgrees(h + mid, reply);
  }

  /** Since request `i`, no reply has carried its number, and no retry of it has been admitted. */
  ghost predicate LeftAlone(h: seq<Event>, i: nat)
    requires i < |h| && Numbered(h[i])
  {
    forall j | i < j < |h| :: !((h[j].Reply? || Admits(h[..j], h[j])) && h[j].xid == h[i].xid)
  }

  /** No sweep since request `i` has found it thirty seconds old. */
  ghost predicate NeverForgotten(h: seq<Event>, i: nat)
    requires i < |h| && Numbered(h[i])
  {
    forall j | i < j < |h| :: !Forgets(h[..j], h[j], h[i])
  }

  lemma AdmissionDisplaces(h: seq<Event>, i: nat, k: nat)
    requires k < i < |h| && Admits(h[..i], h[i]) && Numbered(h[k]) && h[k].xid == h[i].xid
    ensures !Awaits(h, k)
  {
    assert Displaces(h[..i], h[i], h[k]);
  }

  lemma AwaitsWhenLeftAlone(h: seq<Event>, i: nat)
    requires i < |h| && Admits(h[..i], h[i]) && LeftAlone(h, i)
    ensures Awaits(h, i) <==> NeverForgotten(h, i)
    ensures forall k :: 0 <= k < |h| && Awaits(h, k) && h[k].xid == h[i].xid ==> k == i
  {
    forall k | 0 <= k < |h| && Awaits(h, k) && h[k].xid == h[i].xid
      ensures k == i
    {
      if k < i {
        AdmissionDisplaces(h, i, k);
      }
    }
    if Awaits(h, i) {
      forall j | i < j < |h|
        ensures !Forgets(h[..j], h[j], h[i])
      {
        assert !Displaces(h[..j], h[j], h[i]);
      }
    }
    if NeverForgotten(h, i) {
      forall j | i < j < |h|
        ensures !Displaces(h[..j], h[j], h[i])
      {
        assert !Forgets(h[..j], h[j], h[i]);
      }
    }
  }

  /**
   An answer to an admitted request is timed from that request, however late it comes, exactly
   when no sweep has meanwhile forgotten the request; otherwise it is not timed at all.
   */
  lemma AnswerTimedExactly(h: seq<Event>, i: nat, reply: Event)
    requires i < |h| && Admits(h[..i], h[i]) && LeftAlone(h, i)
    requires reply.Reply? && reply.xid == h[i].xid
    ensures NeverForgotten(h, i) <==> AskedBy(h, reply.xid) == Some(i)
    ensures ReadingOf(h, reply, Latency) == if NeverForgotten(h, i) then Some(Minus(reply.ms, h[i].ms)) else None
  {
    AwaitsWhenLeftAlone(h, i);
  }

  /** Nothing but a numbered request sweeps: without one, an answer however late is timed in full. */
  lemma LateAnswerIsTimed(p: seq<Event>, e: Event, mid: seq<Event>, reply: Event)
    requires Admits(p, e) && reply.Reply? && reply.xid == e.xid
    requires forall m :: 0 <= m < |mid| ==> !Numbered(mid[m]) && !(mid[m].Reply? && mid[m].xid == e.xid)
    ensures ReadingOf(p + [e] + mid, reply, Latency) == Some(Minus(reply.ms, e.ms))
  {
    var h, i := p + [e] + mid, |p|;
    assert h[..i] == p && h[i] == e;
    assert forall j :: i < j < |h| ==> h[j] == mid[j - i - 1];
    AnswerTimedExactly(h, i, reply);
  }

  lemma OneWaiting(gi: Option<Gi>, x: nat)
    ensures var t := Run([Request(gi, Some(x), 0, 0)]);
            t.pending == map[x := Pending(0, gi)] && (gi.None? ==> t.byGi == map[])
            && (gi.Some? ==> gi.value in t.byGi && t.byGi[gi.value].answerMsWorst == 0)
  {
    var q := Request(gi, Some(x), 0, 0);
    RunAppend([], q);
    assert [] + [q] == [q];
    StepPending(EMPTY, q);
    assert EMPTY.Expired(0).pending == map[];
  }

  /** There is no bound on the wait an answer can show. */
  lemma AnswerAfterAnyWait(g: Gi, x: nat, wait: nat)
    ensures Run([Request(Some(g), Some(x), 0, 0), Reply(None, Some(x), 0, wait)]).Row(Some(g)).answerMsWorst == wait
  {
    var q, r := Request(Some(g), Some(x), 0, 0), Reply(None, Some(x), 0, wait);
    OneWaiting(Some(g), x);
    RunAppend([q], r);
    assert [q] + [r] == [q, r];
  }

  /** As many requests as the table holds, one under each number. */
  function Flood(n: nat): seq<Event> {
    if n == 0 then [] else Flood(n - 1) + [Request(None, Some(n - 1), 0, 0)]
  }

  lemma OneMoreFlooding(t: Table, n: nat)
    requires 0 < n <= 50_000 && t.sweptMs == 0 && |t.pending| == n - 1 && n - 1 !in t.pending
    ensures var after := Step(t, Request(None, Some(n - 1), 0, 0));
            after.sweptMs == 0 && after.pending == t.pending[n - 1 := Pending(0, None)] && |after.pending| == n
  {
    assert t.Expired(0) == t;
    StepPending(t, Request(None, Some(n - 1), 0, 0));
    assert t.pending[n - 1 := Pending(0, None)].Keys == t.pending.Keys + {n - 1};
  }

  lemma {:induction false} FloodFills(n: nat)
    requires n <= 50_000
    ensures var t := Run(Flood(n));
            && t.sweptMs == 0 && |t.pending| == n
            && (forall x: nat :: x in t.pending <==> x < n)
            && forall x :: x in t.pending ==> t.pending[x] == Pending(0, None)
  {
    if n > 0 {
      FloodFills(n - 1);
      var q := Request(None, Some(n - 1), 0, 0);
      RunAppend(Flood(n - 1), q);
      OneMoreFlooding(Run(Flood(n - 1)), n);
    }
  }

  /** Against a full table a retry, whatever its number, is refused: its first attempt goes on being timed. */
  lemma FullTableRefusesRetry(x: nat)
    requires x < 50_000
    ensures var t := Run(Flood(50_000) + [Request(None, Some(x), 0, 500)]);
            x in t.pending && t.pending[x] == Pending(0, None)
  {
    var q := Request(None, Some(x), 0, 500);
    FloodFills(50_000);
    RunAppend(Flood(50_000), q);
    StepPending(Run(Flood(50_000)), q);
  }

  lemma {:induction false} LatenciesWithinReplies(h: seq<Event>, k: Option<Gi>)
    ensures |Readings(h, k, Latency)| <= |Readings(h, k, Replied)|
  {
    if h != [] {
      LatenciesWithinReplies(Front(h), k);
    }
  }

  /** In no row are there more answers than replies. */
  lemma AnswersWithinReplies(h: seq<Event>, k: Option<Gi>)
    ensures Run(h).Row(k).answered <= Run(h).Row(k).replies
  {
    RowsRefineHistory(h, k);
    LatenciesWithinReplies(h, k);
  }

  /** Answers to requests the row `k` itself made. */
  ghost function Own(h: seq<Event>, k: Option<Gi>): nat {
    if h == [] then 0
    else
      var p, e := Front(h), Last(h);
      Own(p, k) +
      if e.Reply? && AskedBy(p, e.xid).Some? && p[AskedBy(p, e.xid).value].gi == k then 1 else 0
  }

  /** Answers carrying `g` to requests that carried no gi-address. */
  ghost function Strays(h: seq<Event>, g: Gi): nat {
    if h == [] then 0
    else
      var p, e := Front(h), Last(h);
      Strays(p, g) +
      if e.Reply? && AskedBy(p, e.xid).Some? && p[AskedBy(p, e.xid).value].gi.None? && e.gi == Some(g) then 1 else 0
  }

  lemma {:induction false} AnswersSplit(h: seq<Event>, g: Gi)
    ensures |Readings(h, Some(g), Latency)| == Own(h, Some(g)) + Strays(h, g)
    ensures |Readings(h, None, Latency)| <= Own(h, None)
  {
    if h != [] {
      AnswersSplit(Front(h), g);
    }
  }

  /** The requests of row `k` still waiting. */
  ghost function WaitingIn(m: map<nat, Pending>, k: Option<Gi>): set<nat> {
    set x | x in m && m[x].gi == k
  }

  lemma {:induction false} OwnAnswersAreRequests(h: seq<Event>, k: Option<Gi>)
    ensures Own(h, k) + |WaitingIn(Run(h).pending, k)| <= |Readings(h, k, Requested)|
  {
    if h != [] {
      var p, e := Front(h), Last(h);
      assert h == p + [e];
      OwnAnswersAreRequests(p, k);
      TapeAppend(p, e, k);
      OwnStep(p, e, k);
    }
  }

  lemma OwnStep(p: seq<Event>, e: Event, k: Option<Gi>)
    ensures Own(p + [e], k) + |WaitingIn(Run(p + [e]).pending, k)|
         <= Own(p, k) + |WaitingIn(Run(p).pending, k)| + if e.Request? && e.gi == k then 1 else 0
  {
    assert Front(p + [e]) == p;
    RunAppend(p, e);
    StepPending(Run(p), e);
    if Numbered(e) {
      WaitingAfterRequest(Run(p), e, k);
    } else if e.Reply? {
      AskedAgrees(p, e);
      WaitingAfterReply(Run(p).pending, e.xid, k);
    }
  }

  /** A numbered request adds at most its own number to those waiting in its row. */
  lemma WaitingAfterRequest(t: Table, e: Event, k: Option<Gi>)
    requires Numbered(e)
    ensures |WaitingIn(Step(t, e).pending, k)| <= |WaitingIn(t.pending, k)| + if e.gi == k then 1 else 0
  {
    StepPending(t, e);
    var extra: set<nat> := if e.gi == k then {e.xid.value} else {};
    assert WaitingIn(Step(t, e).pending, k) <= WaitingIn(t.pending, k) + extra;
    FitsIn(WaitingIn(Step(t, e).pending, k), WaitingIn(t.pending, k), extra);
  }

  /** A reply takes its number away from those waiting in the row that asked. */
  lemma WaitingAfterReply(m: map<nat, Pending>, xid: Option<nat>, k: Option<Gi>)
    ensures var after := if xid.Some? then m - {xid.value} else m;
            |WaitingIn(after, k)| + (if xid.Some? && xid.value in m && m[xid.value].gi == k then 1 else 0)
              == |WaitingIn(m, k)|
  {
    if xid.Some? {
      assert WaitingIn(m - {xid.value}, k) == WaitingIn(m, k) - {xid.value};
    }
  }

  lemma FitsIn(a: set<nat>, b: set<nat>, extra: set<nat>)
    requires a <= b + extra
    ensures |a| <= |b| + |extra|
  {
    var rest := b + extra - a;
    assert a + rest == b + extra;
    assert b + extra == b + (extra - b);
    assert |extra - b| <= |extra| by {
      assert extra == (extra - b) + (extra * b);
    }
  }

  /**
   A relay's answers stay within its requests exactly as long as the answers credited to
   it for requests without a gi-address fit among its own unanswered requests.
   */
  lemma AnswersWithinRequests(h: seq<Event>, g: Gi)
    ensures var r := Run(h).Row(Some(g));
            && Own(h, Some(g)) <= r.requests
            && r.answered == Own(h, Some(g)) + Strays(h, g)
            && (r.answered <= r.requests <==> Strays(h, g) <= r.requests - Own(h, Some(g)))
    ensures Run(h).unrelayed.answered <= Run(h).unrelayed.requests
  {
    RowsRefineHistory(h, Some(g));
    RowsRefineHistory(h, None);
    AnswersSplit(h, g);
    OwnAnswersAreRequests(h, Some(g));
    OwnAnswersAreRequests(h, None);
  }

  /** A relay that never asked can be credited with an answer. */
  lemma StrayAnswer(g: Gi, x: nat)
    ensures var h := [Request(None, Some(x), 0, 0), Reply(Some(g), Some(x), 0, 0)];
            Run(h).Row(Some(g)).answered == 1 && Run(h).Row(Some(g)).requests == 0
  {
    var q, r := Request(None, Some(x), 0, 0), Reply(Some(g), Some(x), 0, 0);
    OneWaiting(None, x);
    RunAppend([q], r);
    assert [q] + [r] == [q, r];
  }

  lemma {:induction false} SpanWithin(times: seq<nat>, g: nat)
    requires times != []
    requires GapsWithin(times, g)
    ensures Last(times) <= times[0] + g * (|times| - 1)
  {
    if |times| > 1 {
      var p, n := Front(times), |times| - 1;
      assert forall i :: 0 < i < |p| ==> Gap(p, i) == Gap(times, i);
      SpanWithin(p, g);
      assert Gap(times, n) <= g;
      assert g * n == g * (n - 1) + g;
    }
  }

  /** Requests cannot be further apart, end to end, than the measured gap allows; none, no last. */
  lemma RequestsWithinGaps(h: seq<Event>, k: Option<Gi>)
    ensures var r := Run(h).Row(k);
            && (r.lastRequest.None? <==> r.requests == 0)
            && r.requests == |Readings(h, k, Requested)|
            && (r.requests > 0 ==>
                  r.lastRequest.value <= Readings(h, k, Requested)[0] + r.longestGap * (r.requests - 1))
  {
    RowsRefineHistory(h, k);
    if Run(h).Row(k).requests > 0 {
      SpanWithin(Readings(h, k, Requested), Run(h).Row(k).longestGap);
    }
  }
}
