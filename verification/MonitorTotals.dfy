/** Verdicts rest on totals since start-up, while a report shows a window: the two can disagree. */
module MonitorTotals {
  import opened Common
  import opened Packet
  import opened FrameBuilder
  import opened FrameRoundTrip
  import opened RelayRows
  import opened Judgement
  import opened Monitor
  import opened MonitorTallies
  import opened MonitorAlarms

  function Zeros(n: nat): (s: seq<Byte>)
    ensures |s| == n
  {
    seq(n, i => 0)
  }

  /** A DHCPv4 datagram relayed by `relay`: a request when `op` is 1, a reply when it is 2. */
  ghost function Relayed(op: Byte, relay: seq<Byte>): (f: Frame)
    requires |relay| == 4
    ensures f.Fits() && Readable(f)
  {
    Frame(Zeros(12), [], Four(Zeros(5), 0, 0, 64, UDP, Zeros(2), relay, relay, []), 67, 67, 308, Zeros(2),
          Dhcp4(op, Zeros(3), Zeros(4), Zeros(16), relay, []))
  }

  lemma RelayedIsSeen(op: Byte, relay: seq<Byte>, t: Tick)
    requires |relay| == 4 && BeValue(relay) != 0 && t.frame == Some(Build(Relayed(op, relay)))
    ensures FrameSeen(t).Some? && FrameSeen(t).value.gi == Some(BeValue(relay))
    ensures FrameSeen(t).value.kind == if op == 2 then ServerReply else ClientRequest
  {
    ReadUndoesBuild(Relayed(op, relay));
  }

  /** A turn at second `at` that reads such a datagram. */
  ghost function Turned(at: nat, op: Byte, relay: seq<Byte>): Tick
    requires |relay| == 4
  {
    Tick(at, Some(Build(Relayed(op, relay))), at, at * 1000, at)
  }

  /** `n` requests in the first second, none of them answered. */
  ghost function Unheard(n: nat, relay: seq<Byte>): (ticks: seq<Tick>)
    requires |relay| == 4
    ensures |ticks| == n && forall i :: 0 <= i < n ==> ticks[i].at == ticks[i].check == 1
  {
    if n == 0 then [] else Unheard(n - 1, relay) + [Turned(1, 1, relay)]
  }

  /** What one more such turn adds: to the relay's requests, to its replies at most, and to the window. */
  lemma OneMoreTurn(ticks: seq<Tick>, at: nat, op: Byte, relay: seq<Byte>, k: Kind, w: nat, now: nat)
    requires |relay| == 4 && BeValue(relay) != 0
    ensures var more, g := ticks + [Turned(at, op, relay)], BeValue(relay);
            && |Asks(more, g)| == |Asks(ticks, g)| + (if op == 2 then 0 else 1)
            && |Readings(RelayEvents(more), Some(g), Replied)|
                 <= |Readings(RelayEvents(ticks), Some(g), Replied)| + (if op == 2 then 1 else 0)
            && CountFrames(more, k, w, now) == CountFrames(ticks, k, w, now)
                 + if k == (if op == 2 then ServerReply else ClientRequest) && now < at + w then 1 else 0
  {
    var t, g := Turned(at, op, relay), BeValue(relay);
    var more := ticks + [t];
    assert Front(more) == ticks && Last(more) == t;
    RelayedIsSeen(op, relay, t);
    AsksStep(more, g);
    TapeAppend(RelayEvents(ticks), RelayEvent(FrameSeen(t).value, t), Some(g));
  }

  lemma {:induction false} UnheardAmountsTo(n: nat, relay: seq<Byte>, k: Kind, w: nat, now: nat)
    requires |relay| == 4 && BeValue(relay) != 0 && now >= 1 + w
    ensures var ticks, g := Unheard(n, relay), BeValue(relay);
            && |Asks(ticks, g)| == n
            && Readings(RelayEvents(ticks), Some(g), Replied) == []
            && CountFrames(ticks, k, w, now) == 0
  {
    if n > 0 {
      UnheardAmountsTo(n - 1, relay, k, w, now);
      OneMoreTurn(Unheard(n - 1, relay), 1, 1, relay, k, w, now);
    }
  }

  /** Five requests unanswered long ago, and one answered at once in the window. */
  ghost function Recovered(relay: seq<Byte>): (ticks: seq<Tick>)
    requires |relay| == 4
    ensures |ticks| == 7 && Last(ticks).check == 100 && ClockForward(ticks)
  {
    Unheard(5, relay) + [Turned(100, 1, relay)] + [Turned(100, 2, relay)]
  }

  lemma RecoveredAmountsTo(relay: seq<Byte>, k: Kind, w: nat)
    requires |relay| == 4 && BeValue(relay) != 0 && 1 <= w <= 99
    ensures var ticks, g := Recovered(relay), BeValue(relay);
            && |Asks(ticks, g)| == 6
            && |Readings(RelayEvents(ticks), Some(g), Replied)| <= 1
            && CountFrames(ticks, k, w, 100) == if k == ClientRequest || k == ServerReply then 1 else 0
  {
    UnheardAmountsTo(5, relay, k, w, 100);
    OneMoreTurn(Unheard(5, relay), 100, 1, relay, k, w, 100);
    OneMoreTurn(Unheard(5, relay) + [Turned(100, 1, relay)], 100, 2, relay, k, w, 100);
  }

  /**
   A relay that went unanswered long ago is still called Unanswered by a report whose window
   shows every request in it answered.
   */
  lemma AnsweredWindowUnansweredVerdict(cfg: Config, began: nat, relay: seq<Byte>)
    requires |relay| == 4 && BeValue(relay) != 0
    requires cfg.window <= 99 && cfg.minAnswered >= 0.5 && forall g :: cfg.IdleSeconds(g) >= 100
    ensures var shown := WindowShown(cfg, began, false, Recovered(relay));
            && shown.requests == shown.replies == 1
            && WorstOf(Verdicts(cfg, Recovered(relay))) == Unanswered
  {
    RecoveredIsShown(cfg, began, relay);
    RecoveredIsNeglected(cfg, relay);
    PlantUnansweredExactly(cfg, Recovered(relay));
  }

  lemma RecoveredIsShown(cfg: Config, began: nat, relay: seq<Byte>)
    requires |relay| == 4 && BeValue(relay) != 0 && cfg.window <= 99
    ensures WindowShown(cfg, began, false, Recovered(relay)).requests == 1
    ensures WindowShown(cfg, began, false, Recovered(relay)).replies == 1
  {
    RecoveredAmountsTo(relay, ClientRequest, cfg.Window());
    RecoveredAmountsTo(relay, ServerReply, cfg.Window());
    ShownWindowIsTheLastSeconds(cfg, began, false, Recovered(relay), ClientRequest);
    ShownWindowIsTheLastSeconds(cfg, began, false, Recovered(relay), ServerReply);
  }

  lemma RecoveredIsNeglected(cfg: Config, relay: seq<Byte>)
    requires |relay| == 4 && BeValue(relay) != 0
    requires cfg.minAnswered >= 0.5 && forall g :: cfg.IdleSeconds(g) >= 100
    ensures Neglected(Recovered(relay), BeValue(relay), cfg.minAnswered)
    ensures forall g :: !SilentBeyond(Recovered(relay), g, cfg.IdleSeconds(g))
  {
    var ticks, g := Recovered(relay), BeValue(relay);
    RecoveredAmountsTo(relay, ClientRequest, 1);
    SixFold(|Readings(RelayEvents(ticks), Some(g), Replied)|, cfg.minAnswered);
    forall other
      ensures !SilentBeyond(ticks, other, cfg.IdleSeconds(other))
    {
      assert cfg.IdleSeconds(other) >= 100;
    }
  }

  lemma SixFold(replies: nat, share: real)
    requires replies <= 1 && share >= 0.5
    ensures TooFew(6, replies, share)
  {
    assert share * 6.0 >= 3.0;
  }
}
