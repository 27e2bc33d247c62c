/** What a report, a line of progress and the closing line say about the frames read. */
module MonitorReports {
  import opened Common
  import opened Packet
  import R = RelayTable
  import RH = RelayHistory
  import RL = RelayLimits
  import opened RelayRows
  import W = SlidingWindow
  import H = WindowHistory
  import opened Judgement
  import opened Monitor
  import opened MonitorTallies
  import opened MonitorAlarms

  /** The table as a report shows it: every relay's row once, in address order, each saying what its own events were. */
  ghost predicate ShowsRows(rows: seq<(R.Gi, R.Relay)>, h: seq<R.Event>) {
    && (forall i, j :: 0 <= i < j < |rows| ==> rows[i].0 < rows[j].0)
    && (forall i :: 0 <= i < |rows| ==> RowTells(rows[i].1, TapeOf(h, Some(rows[i].0)), Some(rows[i].0)))
    && (forall g :: Readings(h, Some(g), Sighted) != [] <==> exists i :: 0 <= i < |rows| && rows[i].0 == g)
  }

  /** The verdict beside a row: its silence so far, what it is allowed, and the state that follows. */
  ghost predicate ShowsVerdict(v: RelayVerdict, cfg: Config, ticks: seq<Tick>, g: R.Gi)
    requires ticks != []
  {
    var allowed := if g in cfg.perRelay then cfg.perRelay[g] else cfg.idleSeconds;
    && v.idleAllowed == allowed
    && v.idleFor == (if Asks(ticks, g) == [] then None else Some(Minus(Last(ticks).check, Last(Asks(ticks, g)))))
    && (v.state == Quiet <==> SilentBeyond(ticks, g, allowed))
    && (v.state == Unanswered <==> Neglected(ticks, g, cfg.minAnswered) && !SilentBeyond(ticks, g, allowed))
  }

  lemma RowsAreShown(h: seq<R.Event>)
    ensures ShowsRows(R.EachOf(R.Run(h)), h)
  {
    var t := R.Run(h);
    R.EachListsEveryRow(t);
    forall i | 0 <= i < |R.EachOf(t)|
      ensures RowTells(R.EachOf(t)[i].1, TapeOf(h, Some(R.EachOf(t)[i].0)), Some(R.EachOf(t)[i].0))
    {
      RowsRefineHistory(h, Some(R.EachOf(t)[i].0));
    }
    forall g
      ensures Readings(h, Some(g), Sighted) != [] <==> exists i :: 0 <= i < |R.EachOf(t)| && R.EachOf(t)[i].0 == g
    {
      RowsRefineHistory(h, Some(g));
      if g in t.byGi {
        var i :| 0 <= i < |R.EachOf(t)| && R.EachOf(t)[i] == (g, t.byGi[g]);
        assert R.EachOf(t)[i].0 == g;
      }
    }
  }

  lemma VerdictIsShown(cfg: Config, ticks: seq<Tick>, g: R.Gi)
    requires ticks != []
    ensures ShowsVerdict(VerdictOn(cfg, g, R.Run(RelayEvents(ticks)).Row(Some(g)), Last(ticks).check), cfg, ticks, g)
  {
    RelayQuietExactly(cfg, ticks, g);
    RelayUnansweredExactly(cfg, ticks, g);
    RelayCounts(ticks, g);
    var r := R.Run(RelayEvents(ticks)).Row(Some(g));
    VerdictMeans(r.requests, r.replies, r.IdleFor(Last(ticks).check), cfg.IdleSeconds(g), cfg.minAnswered);
  }

  /** The numbers of the requests still awaiting an answer. */
  ghost function Awaiting(h: seq<R.Event>): set<nat> {
    set i | 0 <= i < |h| && RH.Awaits(h, i) :: h[i].xid.value
  }

  lemma WaitingIsAwaiting(h: seq<R.Event>)
    ensures |R.Run(h).pending| == |Awaiting(h)|
  {
    RH.PendingRefinesHistory(h);
    assert R.Run(h).pending.Keys == Awaiting(h);
  }

  /**
   A report says when it was made, every relay that sent anything with its own history and
   verdict, how many requests are waiting, and the unrelayed traffic.
   */
  lemma ReportTellsTheRelays(cfg: Config, began: nat, ticks: seq<Tick>)
    requires IsReport(cfg, began, ticks)
    ensures Lines(cfg, began, false, ticks) != [] && Last(Lines(cfg, began, false, ticks)).Report?
    ensures var line, h := Last(Lines(cfg, began, false, ticks)), RelayEvents(ticks);
            && line.at == Last(ticks).check
            && ShowsRows(line.relays.rows, h)
            && |line.verdicts| == |line.relays.rows|
            && (forall i :: 0 <= i < |line.verdicts| ==>
                  ShowsVerdict(line.verdicts[i], cfg, ticks, line.relays.rows[i].0))
            && IsWorst(line.verdicts, line.state)
            && line.relays.waiting == |Awaiting(h)|
            && RowTells(line.relays.unrelayed, TapeOf(h, None), None)
  {
    var h := RelayEvents(ticks);
    ReportingTurn(cfg, began, false, ticks);
    RowsAreShown(h);
    VerdictsAreShown(cfg, ticks);
    WorstOfIsWorst(Verdicts(cfg, ticks));
    WaitingIsAwaiting(h);
    RowsRefineHistory(h, None);
  }

  /**
   A report's window is the frames of the last window of seconds, and it lists, busiest first,
   exactly the flows with a frame among them.
   */
  lemma ReportTellsTheTraffic(cfg: Config, began: nat, ticks: seq<Tick>, k: Kind, f: W.Flow)
    requires IsReport(cfg, began, ticks) && ClockForward(ticks)
    ensures Lines(cfg, began, false, ticks) != [] && Last(Lines(cfg, began, false, ticks)).Report?
    ensures var line, seconds := Last(Lines(cfg, began, false, ticks)), Max(cfg.window, 1);
            && line.window.Of(k) == CountFrames(ticks, k, seconds, Last(ticks).check)
            && (HasRow(line.flows, f) <==> HasFrame(ticks, f, Last(ticks).check - seconds))
            && W.Sorted(line.flows)
  {
    var h, x := WindowEvents(cfg, began, false, Front(ticks)) + AddPart(Last(ticks)), W.Expire(Last(ticks).check);
    ReportingTurn(cfg, began, false, ticks);
    ShownWindowIsTheLastSeconds(cfg, began, false, ticks, k);
    ShownFlowsAreRecent(cfg, began, ticks, f);
    W.ListingExists(W.Run(cfg.Window(), h + [x] + [x]).flows);
  }

  lemma VerdictsAreShown(cfg: Config, ticks: seq<Tick>)
    requires ticks != []
    ensures var rows := R.EachOf(R.Run(RelayEvents(ticks)));
            && |Verdicts(cfg, ticks)| == |rows|
            && forall i :: 0 <= i < |rows| ==> ShowsVerdict(Verdicts(cfg, ticks)[i], cfg, ticks, rows[i].0)
  {
    var t := R.Run(RelayEvents(ticks));
    R.EachListsEveryRow(t);
    forall i | 0 <= i < |R.EachOf(t)|
      ensures ShowsVerdict(Verdicts(cfg, ticks)[i], cfg, ticks, R.EachOf(t)[i].0)
    {
      VerdictIsShown(cfg, ticks, R.EachOf(t)[i].0);
    }
  }

  /** While measuring, a line of progress says when it was made and what the last window of seconds held. */
  lemma ProgressTellsTheWindow(cfg: Config, began: nat, ticks: seq<Tick>, k: Kind)
    requires IsReport(cfg, began, ticks) && ClockForward(ticks)
    ensures Lines(cfg, began, true, ticks) != [] && Last(Lines(cfg, began, true, ticks)).Progress?
    ensures var line := Last(Lines(cfg, began, true, ticks));
            && line.at == Last(ticks).check
            && line.window.Of(k) == CountFrames(ticks, k, Max(cfg.window, 1), Last(ticks).check)
  {
    ReportingTurn(cfg, began, true, ticks);
    ShownWindowIsTheLastSeconds(cfg, began, true, ticks, k);
  }

  // The flow an alert names.

  lemma ExpiredTwice(t: W.Tally, cutoff: nat)
    ensures W.Expired(W.Expired(t, cutoff), cutoff).flows == W.Expired(t, cutoff).flows
  {
  }

  lemma ReadAgain(w: nat, h: seq<W.Event>, now: nat)
    ensures W.Run(w, h + [W.Expire(now)] + [W.Expire(now)]).flows == W.Run(w, h + [W.Expire(now)]).flows
  {
    var x := W.Expire(now);
    W.RunAppend(w, h, x);
    W.RunAppend(w, h + [x], x);
    ExpiredTwice(W.Run(w, h), W.Cutoff(w, now));
  }

  lemma BusiestIsFirstShown(cfg: Config, began: nat, ticks: seq<Tick>)
    requires IsReport(cfg, began, ticks) && Told(cfg, began, ticks)
    ensures BusiestShown(cfg, began, ticks) == FirstFlow(FlowsShown(cfg, began, ticks))
  {
    var h, x := WindowEvents(cfg, began, false, Front(ticks)) + AddPart(Last(ticks)), W.Expire(Last(ticks).check);
    ReadAtReport(cfg, began, ticks, h, true);
    ReadAgain(cfg.Window(), h + [x], Last(ticks).check);
  }

  lemma FirstIsBusiest(flows: map<W.Flow, W.Dest>, i: nat)
    requires i < |W.Listing(flows)|
    ensures W.PacketsIn(W.Listing(flows)[i].1) <= W.PacketsIn(W.Listing(flows)[0].1)
  {
    W.ListingExists(flows);
    if i > 0 {
      W.KeyIsBusiestFirst(W.Listing(flows)[0], W.Listing(flows)[i]);
    }
  }

  /** The flow an alert names is one the report lists, and none listed has more packets; no flow is named only if none is listed. */
  lemma BusiestIsBusiest(cfg: Config, began: nat, ticks: seq<Tick>, i: nat)
    requires IsReport(cfg, began, ticks) && Told(cfg, began, ticks)
    ensures var line := Last(Lines(cfg, began, false, ticks));
            && line.Report? && line.told
            && (line.busiest.None? <==> line.flows == [])
            && (line.busiest.Some? ==> line.flows[0].0 == line.busiest.value)
            && (i < |line.flows| ==> W.PacketsIn(line.flows[i].1) <= W.PacketsIn(line.flows[0].1))
  {
    var h, x := WindowEvents(cfg, began, false, Front(ticks)) + AddPart(Last(ticks)), W.Expire(Last(ticks).check);
    ReportingTurn(cfg, began, false, ticks);
    BusiestIsFirstShown(cfg, began, ticks);
    if i < |FlowsShown(cfg, began, ticks)| {
      FirstIsBusiest(W.Run(cfg.Window(), h + [x] + [x]).flows, i);
    }
  }

  // The closing totals.

  /** The frames of one kind read in a whole run. */
  function CountSeen(ticks: seq<Tick>, k: Kind): nat {
    if ticks == [] then 0
    else
      CountSeen(Front(ticks), k)
      + if FrameSeen(Last(ticks)).Some? && FrameSeen(Last(ticks)).value.kind == k then 1 else 0
  }

  lemma AddOfTurn(t: Tick, k: Kind)
    ensures H.CountAdds(AddPart(t), k) == if FrameSeen(t).Some? && FrameSeen(t).value.kind == k then 1 else 0
  {
    if FrameSeen(t).Some? {
      assert Front(AddPart(t)) == [];
    }
  }

  lemma {:induction false} AddsAreSeen(ticks: seq<Tick>, looks: seq<seq<W.Event>>, k: Kind)
    requires ReadsOf(ticks, looks)
    ensures H.CountAdds(Interleaved(ticks, looks), k) == CountSeen(ticks, k)
  {
    if ticks != [] {
      FrontReads(ticks, looks);
      AddsAreSeen(Front(ticks), Front(looks), k);
      AddsAfterTurn(Interleaved(Front(ticks), Front(looks)), Last(ticks), Last(looks), k);
      AddOfTurn(Last(ticks), k);
    }
  }

  /** The totals a run closes with are all the frames it ever read, kind by kind. */
  lemma ClosingCountsEveryFrame(cfg: Config, began: nat, ticks: seq<Tick>)
    ensures TotalsShown(cfg, began, ticks).requests == CountSeen(ticks, ClientRequest)
    ensures TotalsShown(cfg, began, ticks).replies == CountSeen(ticks, ServerReply)
    ensures TotalsShown(cfg, began, ticks).fileReads == CountSeen(ticks, TftpRequest)
    ensures TotalsShown(cfg, began, ticks).fileSends == CountSeen(ticks, TftpReply)
  {
    var looks := WindowEventsInterleave(cfg, began, false, ticks);
    forall k: Kind
      ensures TotalsShown(cfg, began, ticks).Of(k) == CountSeen(ticks, k)
    {
      H.TotalsCountAll(cfg.Window(), WindowEvents(cfg, began, false, ticks), k);
      AddsAreSeen(ticks, looks, k);
    }
    assert TotalsShown(cfg, began, ticks).Of(ClientRequest) == CountSeen(ticks, ClientRequest);
    assert TotalsShown(cfg, began, ticks).Of(ServerReply) == CountSeen(ticks, ServerReply);
    assert TotalsShown(cfg, began, ticks).Of(TftpRequest) == CountSeen(ticks, TftpRequest);
    assert TotalsShown(cfg, began, ticks).Of(TftpReply) == CountSeen(ticks, TftpReply);
  }

  // An answer's time, from frame to frame.

  /** The turn read a request with this number, from this relay or from none. */
  predicate ReadsRequest(t: Tick, gi: Option<nat>, xid: nat) {
    FrameSeen(t).Some? && FrameSeen(t).value.kind == ClientRequest && FrameSeen(t).value.gi == gi && FrameSeen(t).value.xid == Some(xid)
  }

  predicate ReadsReply(t: Tick, xid: nat) {
    FrameSeen(t).Some? && FrameSeen(t).value.kind == ServerReply && FrameSeen(t).value.xid == Some(xid)
  }

  /**
   A reply read right after a relay's request with its number, when there was room to remember
   it, is counted in that relay's row at its own second, and timed by the millisecond clocks
   of the two frames.
   */
  lemma AnswerTimedFrameToFrame(ticks: seq<Tick>, a: Tick, b: Tick, g: R.Gi, xid: nat)
    requires ReadsRequest(a, Some(g), xid) && ReadsReply(b, xid)
    requires |R.Run(RelayEvents(ticks)).Expired(a.ms).pending| < 50_000
    ensures Readings(RelayEvents(ticks + [a] + [b]), Some(g), Latency)
         == Readings(RelayEvents(ticks + [a]), Some(g), Latency) + [Minus(b.ms, a.ms)]
    ensures Readings(RelayEvents(ticks + [a] + [b]), Some(g), Replied)
         == Readings(RelayEvents(ticks + [a]), Some(g), Replied) + [b.at]
  {
    var q := RequestRead(ticks, a, Some(g), xid);
    var r := ReplyRead(ticks + [a], b, xid);
    AnsweredInTable(RelayEvents(ticks), q, r, g, xid);
  }

  lemma AnsweredInTable(h: seq<R.Event>, q: R.Event, r: R.Event, g: R.Gi, xid: nat)
    requires q.Request? && q.gi == Some(g) && q.xid == Some(xid) && r.Reply? && r.xid == Some(xid)
    requires |R.Run(h).Expired(q.ms).pending| < 50_000
    ensures Readings(h + [q] + [r], Some(g), Latency) == Readings(h + [q], Some(g), Latency) + [Minus(r.ms, q.ms)]
    ensures Readings(h + [q] + [r], Some(g), Replied) == Readings(h + [q], Some(g), Replied) + [r.now]
  {
    RoomAdmits(h, q);
    AnsweredNext(h, q, r, g);
  }

  lemma RequestRead(ticks: seq<Tick>, a: Tick, gi: Option<nat>, xid: nat) returns (q: R.Event)
    requires ReadsRequest(a, gi, xid)
    ensures q == R.Request(gi, Some(xid), a.at, a.ms) && RelayEvents(ticks + [a]) == RelayEvents(ticks) + [q]
  {
    q := RelayEvent(FrameSeen(a).value, a);
    assert Front(ticks + [a]) == ticks;
  }

  lemma ReplyRead(ticks: seq<Tick>, b: Tick, xid: nat) returns (r: R.Event)
    requires ReadsReply(b, xid)
    ensures r.Reply? && r.xid == Some(xid) && r.now == b.at && r.ms == b.ms
    ensures RelayEvents(ticks + [b]) == RelayEvents(ticks) + [r]
  {
    r := RelayEvent(FrameSeen(b).value, b);
    assert Front(ticks + [b]) == ticks;
  }

  lemma RoomAdmits(h: seq<R.Event>, q: R.Event)
    requires RH.Numbered(q) && |R.Run(h).Expired(q.ms).pending| < 50_000
    ensures RH.Admits(h, q)
  {
    RH.PendingRefinesHistory(h);
    RH.SweepAgrees(h, q, R.Run(h));
  }

  lemma AnsweredNext(h: seq<R.Event>, q: R.Event, r: R.Event, g: R.Gi)
    requires RH.Admits(h, q) && q.gi == Some(g) && r.Reply? && r.xid == q.xid
    ensures Readings(h + [q] + [r], Some(g), Latency) == Readings(h + [q], Some(g), Latency) + [Minus(r.ms, q.ms)]
    ensures Readings(h + [q] + [r], Some(g), Replied) == Readings(h + [q], Some(g), Replied) + [r.now]
  {
    var p := h + [q];
    assert p[..|h|] == h && p[|h|] == q && p + [] == p;
    RL.AnswerTimedExactly(p, |h|, r);
    TapeAppend(p, r, Some(g));
  }
}
