/** The monitor's counters, over whole runs: against the relay table, and against the frames read. */
module MonitorTallies {
  import opened Common
  import opened Packet
  import W = SlidingWindow
  import H = WindowHistory
  import F = FlowHistory
  import R = RelayTable
  import L = RelayLedger
  import opened Monitor

  // Clocks that never run backwards.

  ghost predicate ClockForward(ticks: seq<Tick>) {
    && (forall i :: 0 <= i < |ticks| ==> 0 < ticks[i].at <= ticks[i].check)
    && (forall i, j :: 0 <= i < j < |ticks| ==> ticks[i].check <= ticks[j].at)
  }

  lemma ForwardFront(ticks: seq<Tick>)
    requires ticks != [] && ClockForward(ticks)
    ensures ClockForward(Front(ticks))
    ensures forall i :: 0 <= i < |ticks| - 1 ==> Front(ticks)[i] == ticks[i] && ticks[i].check <= Last(ticks).at
  {
  }

  // However often the counters are read between frames, what they count is the frames.

  /** Nothing but reads made at `at`. */
  ghost predicate OnlyReads(read: seq<W.Event>, at: nat) {
    forall i :: 0 <= i < |read| ==> read[i] == W.Expire(at)
  }

  /** Each turn's frame, then whatever was read after it. */
  ghost function Interleaved(ticks: seq<Tick>, looks: seq<seq<W.Event>>): seq<W.Event>
    requires |looks| == |ticks|
  {
    if ticks == [] then [] else Interleaved(Front(ticks), Front(looks)) + AddPart(Last(ticks)) + Last(looks)
  }

  ghost predicate ReadsOf(ticks: seq<Tick>, looks: seq<seq<W.Event>>) {
    |looks| == |ticks| && forall i :: 0 <= i < |looks| ==> OnlyReads(looks[i], ticks[i].check)
  }

  lemma FrontReads(ticks: seq<Tick>, looks: seq<seq<W.Event>>)
    requires ticks != [] && ReadsOf(ticks, looks)
    ensures ReadsOf(Front(ticks), Front(looks)) && OnlyReads(Last(looks), Last(ticks).check)
  {
    forall i | 0 <= i < |ticks| - 1
      ensures OnlyReads(Front(looks)[i], Front(ticks)[i].check)
    {
      assert OnlyReads(looks[i], ticks[i].check);
    }
    assert OnlyReads(looks[|looks| - 1], ticks[|looks| - 1].check);
  }

  lemma OneMoreRead(ticks: seq<Tick>, looks: seq<seq<W.Event>>, read: seq<W.Event>)
    requires ticks != [] && ReadsOf(Front(ticks), looks) && OnlyReads(read, Last(ticks).check)
    ensures ReadsOf(ticks, looks + [read])
    ensures Interleaved(ticks, looks + [read]) == Interleaved(Front(ticks), looks) + AddPart(Last(ticks)) + read
  {
    var all := looks + [read];
    forall i | 0 <= i < |all|
      ensures OnlyReads(all[i], ticks[i].check)
    {
      if i < |looks| {
        assert OnlyReads(looks[i], Front(ticks)[i].check);
      }
    }
    assert Front(all) == looks;
  }

  lemma ReadPartReads(cfg: Config, began: nat, adapting: bool, ticks: seq<Tick>)
    requires ticks != []
    ensures OnlyReads(ReadPart(cfg, began, adapting, ticks), Last(ticks).check)
  {
  }

  lemma {:induction false} WindowEventsInterleave(cfg: Config, began: nat, adapting: bool, ticks: seq<Tick>)
    returns (looks: seq<seq<W.Event>>)
    ensures ReadsOf(ticks, looks) && WindowEvents(cfg, began, adapting, ticks) == Interleaved(ticks, looks)
  {
    if ticks == [] {
      looks := [];
    } else {
      var before := WindowEventsInterleave(cfg, began, adapting, Front(ticks));
      ReadPartReads(cfg, began, adapting, ticks);
      OneMoreRead(ticks, before, ReadPart(cfg, began, adapting, ticks));
      looks := before + [ReadPart(cfg, began, adapting, ticks)];
    }
  }

  // Two tallies kept separately.

  function ColumnOf(k: Kind): L.Column {
    match k
    case ClientRequest => L.Requests
    case ServerReply => L.Replies
    case TftpRequest => L.FileReads
    case TftpReply => L.FileSends
  }

  lemma {:induction false} AddsConcat(a: seq<W.Event>, b: seq<W.Event>, k: Kind)
    ensures H.CountAdds(a + b, k) == H.CountAdds(a, k) + H.CountAdds(b, k)
  {
    if b == [] {
      assert a + b == a;
    } else {
      AddsConcat(a, Front(b), k);
      assert Front(a + b) == a + Front(b);
    }
  }

  lemma {:induction false} AddsAreEvents(ticks: seq<Tick>, looks: seq<seq<W.Event>>, k: Kind)
    requires ReadsOf(ticks, looks)
    ensures H.CountAdds(Interleaved(ticks, looks), k) == L.Counted(RelayEvents(ticks), ColumnOf(k))
  {
    if ticks != [] {
      FrontReads(ticks, looks);
      AddsAreEvents(Front(ticks), Front(looks), k);
      AddsOfTurn(Interleaved(Front(ticks), Front(looks)), RelayEvents(Front(ticks)), Last(ticks), Last(looks), k);
    }
  }

  lemma AddsOfTurn(h: seq<W.Event>, told: seq<R.Event>, t: Tick, read: seq<W.Event>, k: Kind)
    requires OnlyReads(read, t.check)
    requires H.CountAdds(h, k) == L.Counted(told, ColumnOf(k))
    ensures H.CountAdds(h + AddPart(t) + read, k) == L.Counted(told + RelayPart(t), ColumnOf(k))
  {
    AddsAfterTurn(h, t, read, k);
    AddsAreEventsStep(told, t, k);
  }

  lemma AddsAfterTurn(h: seq<W.Event>, t: Tick, read: seq<W.Event>, k: Kind)
    requires forall i :: 0 <= i < |read| ==> read[i].Expire?
    ensures H.CountAdds(h + AddPart(t) + read, k) == H.CountAdds(h, k) + H.CountAdds(AddPart(t), k)
  {
    AddsConcat(h, AddPart(t), k);
    AddsConcat(h + AddPart(t), read, k);
    ReadsAddNothing(read, k);
  }

  lemma {:induction false} ReadsAddNothing(read: seq<W.Event>, k: Kind)
    requires forall i :: 0 <= i < |read| ==> read[i].Expire?
    ensures H.CountAdds(read, k) == 0
  {
    if read != [] {
      ReadsAddNothing(Front(read), k);
    }
  }

  lemma AddsAreEventsStep(h: seq<R.Event>, t: Tick, k: Kind)
    ensures L.Counted(h + RelayPart(t), ColumnOf(k)) == L.Counted(h, ColumnOf(k)) + H.CountAdds(AddPart(t), k)
  {
    if FrameSeen(t).Some? {
      var e := RelayEvent(FrameSeen(t).value, t);
      assert Front(h + [e]) == h;
    } else {
      assert h + [] == h;
    }
  }

  /** At every point of a run, the counters' totals are the sums over the relay rows. */
  lemma TalliesAgree(cfg: Config, began: nat, adapting: bool, ticks: seq<Tick>, k: Kind)
    ensures W.Run(cfg.Window(), WindowEvents(cfg, began, adapting, ticks)).total.Of(k)
         == L.SumRows(R.Run(RelayEvents(ticks)), ColumnOf(k))
  {
    H.TotalsCountAll(cfg.Window(), WindowEvents(cfg, began, adapting, ticks), k);
    var looks := WindowEventsInterleave(cfg, began, adapting, ticks);
    AddsAreEvents(ticks, looks, k);
    L.RowsAddUp(RelayEvents(ticks), ColumnOf(k));
  }

  /** The seconds of `h` run forward, from `low` to `high`. */
  ghost predicate Within(h: seq<W.Event>, low: nat, high: nat) {
    H.Forward(h) && low <= high && forall i :: 0 <= i < |h| ==> low <= h[i].now <= high
  }

  lemma JoinWithin(a: seq<W.Event>, b: seq<W.Event>, low: nat, mid: nat, high: nat)
    requires Within(a, low, mid) && Within(b, mid, high)
    ensures Within(a + b, low, high)
  {
  }

  lemma TurnWithin(h: seq<W.Event>, t: Tick, read: seq<W.Event>)
    requires t.at <= t.check && Within(h, 1, t.at)
    requires OnlyReads(read, t.check)
    ensures Within(h + AddPart(t), 1, t.check) && Within(h + AddPart(t) + read, 1, t.check)
  {
    JoinWithin(h, AddPart(t), 1, t.at, t.check);
    JoinWithin(h + AddPart(t), read, 1, t.check, t.check);
  }

  /** Every second the counters are told is positive and no later than the last turn's check. */
  lemma {:induction false} InterleavedForward(ticks: seq<Tick>, looks: seq<seq<W.Event>>, high: nat)
    requires ReadsOf(ticks, looks) && ClockForward(ticks) && high > 0
    requires forall i :: 0 <= i < |ticks| ==> ticks[i].check <= high
    ensures Within(Interleaved(ticks, looks), 1, high)
  {
    if ticks != [] {
      ForwardFront(ticks);
      FrontReads(ticks, looks);
      InterleavedForward(Front(ticks), Front(looks), Last(ticks).at);
      TurnWithin(Interleaved(Front(ticks), Front(looks)), Last(ticks), Last(looks));
    }
  }

  /** Of the frames read in a run, those of one kind seen in the `w` seconds before `now`. */
  function CountFrames(ticks: seq<Tick>, k: Kind, w: nat, now: nat): nat {
    if ticks == [] then 0
    else
      CountFrames(Front(ticks), k, w, now)
      + if FrameSeen(Last(ticks)).Some? && FrameSeen(Last(ticks)).value.kind == k && now < Last(ticks).at + w then 1 else 0
  }

  lemma {:induction false} RecentConcat(w: nat, a: seq<W.Event>, b: seq<W.Event>, k: Kind, now: nat, n: nat)
    requires n <= |b|
    ensures H.CountRecent(w, a + b, k, now, |a| + n) == H.CountRecent(w, a, k, now, |a|) + H.CountRecent(w, b, k, now, n)
  {
    if n == 0 {
      RecentOfPrefix(w, a, b, k, now, |a|);
    } else {
      RecentConcat(w, a, b, k, now, n - 1);
      assert (a + b)[|a| + n - 1] == b[n - 1];
    }
  }

  lemma {:induction false} RecentOfPrefix(w: nat, a: seq<W.Event>, b: seq<W.Event>, k: Kind, now: nat, n: nat)
    requires n <= |a|
    ensures H.CountRecent(w, a + b, k, now, n) == H.CountRecent(w, a, k, now, n)
  {
    if n > 0 {
      RecentOfPrefix(w, a, b, k, now, n - 1);
      assert (a + b)[n - 1] == a[n - 1];
    }
  }

  lemma {:induction false} RecentIsFrames(ticks: seq<Tick>, looks: seq<seq<W.Event>>, k: Kind, w: nat, now: nat)
    requires ReadsOf(ticks, looks)
    ensures var h := Interleaved(ticks, looks);
            H.CountRecent(w, h, k, now, |h|) == CountFrames(ticks, k, w, now)
  {
    if ticks != [] {
      FrontReads(ticks, looks);
      RecentIsFrames(Front(ticks), Front(looks), k, w, now);
      RecentAfterTurn(w, Interleaved(Front(ticks), Front(looks)), Last(ticks), Last(looks), k, now);
    }
  }

  /** All of a history's packets of one kind in the last `w` seconds. */
  ghost function RecentIn(w: nat, h: seq<W.Event>, k: Kind, now: nat): nat {
    H.CountRecent(w, h, k, now, |h|)
  }

  lemma RecentInBoth(w: nat, a: seq<W.Event>, b: seq<W.Event>, k: Kind, now: nat)
    ensures RecentIn(w, a + b, k, now) == RecentIn(w, a, k, now) + RecentIn(w, b, k, now)
  {
    RecentConcat(w, a, b, k, now, |b|);
  }

  lemma RecentAfterTurn(w: nat, h: seq<W.Event>, t: Tick, read: seq<W.Event>, k: Kind, now: nat)
    requires OnlyReads(read, t.check)
    ensures RecentIn(w, h + AddPart(t) + read, k, now) == RecentIn(w, h, k, now)
              + if FrameSeen(t).Some? && FrameSeen(t).value.kind == k && now < t.at + w then 1 else 0
  {
    RecentInBoth(w, h, AddPart(t), k, now);
    RecentInBoth(w, h + AddPart(t), read, k, now);
    ReadsAreNotRecent(w, read, k, now, |read|);
    AddIsOneFrame(t, k, w, now);
  }

  lemma {:induction false} ReadsAreNotRecent(w: nat, read: seq<W.Event>, k: Kind, now: nat, n: nat)
    requires n <= |read| && forall i :: 0 <= i < |read| ==> read[i].Expire?
    ensures H.CountRecent(w, read, k, now, n) == 0
  {
    if n > 0 {
      ReadsAreNotRecent(w, read, k, now, n - 1);
    }
  }

  lemma AddIsOneFrame(t: Tick, k: Kind, w: nat, now: nat)
    ensures H.CountRecent(w, AddPart(t), k, now, |AddPart(t)|)
         == if FrameSeen(t).Some? && FrameSeen(t).value.kind == k && now < t.at + w then 1 else 0
  {
    if FrameSeen(t).Some? {
      assert H.CountRecent(w, AddPart(t), k, now, 0) == 0;
    }
  }

  lemma LastSecondsAfter(w: nat, before: seq<W.Event>, t: Tick, k: Kind)
    requires 0 < t.at <= t.check && Within(before, 1, t.at)
    ensures var h := before + AddPart(t) + [W.Expire(t.check)];
            W.SumBuckets(W.Run(w, h).buckets).Of(k) == H.CountRecent(w, before, k, t.check, |before|)
              + if FrameSeen(t).Some? && FrameSeen(t).value.kind == k && t.check < t.at + w then 1 else 0
  {
    TurnWithin(before, t, [W.Expire(t.check)]);
    H.WindowIsTheLastSeconds(w, before + AddPart(t), k, t.check);
    RecentAfterTurn(w, before, t, [W.Expire(t.check)], k, t.check);
  }

  lemma FrontWithin(ticks: seq<Tick>, looks: seq<seq<W.Event>>)
    requires ticks != [] && ClockForward(ticks) && ReadsOf(Front(ticks), looks)
    ensures 0 < Last(ticks).at <= Last(ticks).check
    ensures Within(Interleaved(Front(ticks), looks), 1, Last(ticks).at)
  {
    ForwardFront(ticks);
    InterleavedForward(Front(ticks), looks, Last(ticks).at);
  }

  /** The counts a report shows are the frames of the last `window` seconds, and nothing else. */
  lemma ShownWindowIsTheLastSeconds(cfg: Config, began: nat, adapting: bool, ticks: seq<Tick>, k: Kind)
    requires ticks != [] && ClockForward(ticks)
    ensures WindowShown(cfg, began, adapting, ticks).Of(k)
         == CountFrames(ticks, k, Max(cfg.window, 1), Last(ticks).check)
  {
    var looks := WindowEventsInterleave(cfg, began, adapting, Front(ticks));
    FrontWithin(ticks, looks);
    RecentIsFrames(Front(ticks), looks, k, cfg.Window(), Last(ticks).check);
    LastSecondsAfter(cfg.Window(), Interleaved(Front(ticks), looks), Last(ticks), k);
  }

  /** The turn read a frame of this flow, later than `low`. */
  predicate Carries(t: Tick, f: W.Flow, low: int) {
    && FrameSeen(t).Some? && low < t.at
    && f == W.Flow(FrameSeen(t).value.src, FrameSeen(t).value.dst, FrameSeen(t).value.gi)
  }

  /** Some event is a packet of this flow, later than `low`. */
  ghost predicate HasPacket(h: seq<W.Event>, f: W.Flow, low: int) {
    exists i :: 0 <= i < |h| && F.IsOf(h[i], f) && low < h[i].now
  }

  ghost predicate HasFrame(ticks: seq<Tick>, f: W.Flow, low: int) {
    exists t :: t in ticks && Carries(t, f, low)
  }

  lemma PacketIn(a: seq<W.Event>, b: seq<W.Event>, f: W.Flow, low: int)
    ensures HasPacket(a + b, f, low) <==> HasPacket(a, f, low) || HasPacket(b, f, low)
  {
    if i :| 0 <= i < |a| && F.IsOf(a[i], f) && low < a[i].now {
      assert (a + b)[i] == a[i];
    }
    if i :| 0 <= i < |b| && F.IsOf(b[i], f) && low < b[i].now {
      assert (a + b)[|a| + i] == b[i];
    }
  }

  lemma PacketOfTurn(h: seq<W.Event>, t: Tick, read: seq<W.Event>, f: W.Flow, low: int)
    requires OnlyReads(read, t.check)
    ensures HasPacket(h + AddPart(t) + read, f, low) <==> HasPacket(h, f, low) || Carries(t, f, low)
  {
    PacketIn(h, AddPart(t), f, low);
    PacketIn(h + AddPart(t), read, f, low);
    if FrameSeen(t).Some? {
      assert AddPart(t)[0].now == t.at;
    }
  }

  lemma FrameOfTurn(ticks: seq<Tick>, f: W.Flow, low: int)
    requires ticks != []
    ensures HasFrame(ticks, f, low) <==> HasFrame(Front(ticks), f, low) || Carries(Last(ticks), f, low)
  {
    assert ticks == Front(ticks) + [Last(ticks)];
  }

  lemma {:induction false} PacketsAreFrames(ticks: seq<Tick>, looks: seq<seq<W.Event>>, f: W.Flow, low: int)
    requires ReadsOf(ticks, looks)
    ensures HasPacket(Interleaved(ticks, looks), f, low) <==> HasFrame(ticks, f, low)
  {
    if ticks != [] {
      FrontReads(ticks, looks);
      PacketsAreFrames(Front(ticks), Front(looks), f, low);
      PacketOfTurn(Interleaved(Front(ticks), Front(looks)), Last(ticks), Last(looks), f, low);
      FrameOfTurn(ticks, f, low);
    }
  }

  lemma ListedAfter(w: nat, before: seq<W.Event>, t: Tick, f: W.Flow)
    requires w >= 1 && 0 < t.at <= t.check && Within(before, 1, t.at)
    ensures var x := W.Expire(t.check);
            (f in W.Run(w, before + AddPart(t) + [x] + [x]).flows)
              <==> (HasPacket(before, f, t.check - w) || Carries(t, f, t.check - w))
  {
    var x := W.Expire(t.check);
    Regroup(before + AddPart(t), [x], [x]);
    TurnWithin(before, t, [x] + [x]);
    F.ListedIsRecent(w, before + AddPart(t) + ([x] + [x]), f);
    PacketOfTurn(before, t, [x] + [x], f, t.check - w);
  }

  /** One of the rows is this flow's. */
  ghost predicate HasRow(rows: seq<(W.Flow, W.Dest)>, f: W.Flow) {
    exists i :: 0 <= i < |rows| && rows[i].0 == f
  }

  lemma ListingHasRow(flows: map<W.Flow, W.Dest>, f: W.Flow)
    ensures HasRow(W.Listing(flows), f) <==> f in flows
  {
    W.ListingExists(flows);
  }

  lemma ListingAfter(w: nat, ticks: seq<Tick>, looks: seq<seq<W.Event>>, f: W.Flow)
    requires w >= 1 && ticks != [] && ClockForward(ticks) && ReadsOf(Front(ticks), looks)
    ensures var h, x := Interleaved(Front(ticks), looks) + AddPart(Last(ticks)), W.Expire(Last(ticks).check);
            HasRow(W.Listing(W.Run(w, h + [x] + [x]).flows), f) <==> HasFrame(ticks, f, Last(ticks).check - w)
  {
    var p, t := Front(ticks), Last(ticks);
    FrontWithin(ticks, looks);
    PacketsAreFrames(p, looks, f, t.check - w);
    ListedAfter(w, Interleaved(p, looks), t, f);
    FrameOfTurn(ticks, f, t.check - w);
    ListingHasRow(W.Run(w, Interleaved(p, looks) + AddPart(t) + [W.Expire(t.check)] + [W.Expire(t.check)]).flows, f);
  }

  /** A report lists a flow exactly when one of its frames was read in the last window of seconds. */
  lemma ShownFlowsAreRecent(cfg: Config, began: nat, ticks: seq<Tick>, f: W.Flow)
    requires ticks != [] && ClockForward(ticks)
    ensures HasRow(FlowsShown(cfg, began, ticks), f) <==> HasFrame(ticks, f, Last(ticks).check - Max(cfg.window, 1))
  {
    var looks := WindowEventsInterleave(cfg, began, false, Front(ticks));
    ListingAfter(cfg.Window(), ticks, looks, f);
  }
}
