/** The trap a report sends, and what its receiver is able to learn from it. */
module Alert {
  import opened Common
  import opened Ber
  import opened BerReader
  import opened TrapRoundTrip
  import opened Judgement
  import P = Packet
  import W = SlidingWindow
  import M = Monitor
  import T = MonitorTallies
  import A = MonitorAlarms

  /** Text as its octets; everything said here is ASCII. */
  function Ascii(s: string): (b: seq<Byte>)
    requires forall i :: 0 <= i < |s| ==> s[i] < 128 as char
    ensures |b| == |s|
  {
    seq(|s|, i requires 0 <= i < |s| => s[i] as int)
  }

  function Word(s: State): seq<Byte> {
    match s
    case Working => Ascii("working")
    case Quiet => Ascii("quiet")
    case Unanswered => Ascii("unanswered")
  }

  function TrapNumber(s: State): nat {
    match s
    case Working => 3
    case Quiet => 1
    case Unanswered => 2
  }

  function Build(host: seq<Byte>, iface: seq<Byte>, busiest: seq<Byte>, state: State, w: W.Counts, window: nat,
                 at: nat, began: nat): Trap {
    Trap(Minus(at, began) * 100, TrapNumber(state),
         [Binding(Field(1), Str(host)), Binding(Field(2), Str(iface)), Binding(Field(3), Str(Word(state))),
          Binding(Field(4), Count(w.requests)), Binding(Field(5), Count(w.replies)), Binding(Field(6), Count(w.fileReads)),
          Binding(Field(7), Count(window)), Binding(Field(8), Str(busiest))])
  }

  // What a receiver takes from a message, by its own names and numbers.

  /** The octets of the three words, in ASCII. */
  function WordFor(s: State): seq<Byte> {
    match s
    case Working => [119, 111, 114, 107, 105, 110, 103]
    case Quiet => [113, 117, 105, 101, 116]
    case Unanswered => [117, 110, 97, 110, 115, 119, 101, 114, 101, 100]
  }

  lemma WordsAgree(s: State)
    ensures Word(s) == WordFor(s)
  {
  }

  /** The state a receiver's rule for these traps would recover. */
  function StateIn(m: Message): Option<State> {
    if |m.bindings| < 2 || m.bindings[1].name != WHICH_NAME || !m.bindings[1].value.Oid? then None
    else
      var arcs := m.bindings[1].value.arcs;
      if arcs == OWN_NAME + [3] then Some(Working)
      else if arcs == OWN_NAME + [1] then Some(Quiet)
      else if arcs == OWN_NAME + [2] then Some(Unanswered)
      else None
  }

  /** How long the sender had been up, in hundredths of a second. */
  function UptimeIn(m: Message): Option<nat> {
    if m.bindings == [] || m.bindings[0].name != UPTIME_NAME || !m.bindings[0].value.Ticks? then None
    else Some(m.bindings[0].value.n)
  }

  /** The value a receiver finds under one of this program's fields. */
  function ValueIn(m: Message, field: nat): Option<Value> {
    if field + 1 < |m.bindings| && m.bindings[field + 1].name == OWN_NAME + [1, field]
    then Some(m.bindings[field + 1].value)
    else None
  }

  lemma FieldsAreWellNamed(n: nat)
    ensures WellFormed(Field(n))
  {
  }

  /** Eight bindings under this program's fields in order, none of them an identifier. */
  ghost predicate Fields(t: Trap) {
    |t.bindings| == 8
    && forall i :: 0 <= i < 8 ==> t.bindings[i].name == Field(i + 1) && !t.bindings[i].value.Oid?
  }

  lemma FieldsComeBack(community: seq<Byte>, t: Trap)
    requires Fields(t) && |Datagram(community, t)| < 0x1_0000_0000_0000_0000
    ensures ReadMessage(Datagram(community, t)) == Some(Expected(community, t))
  {
    forall i | 0 <= i < |t.bindings|
      ensures WellNamed(t.bindings[i])
    {
      FieldsAreWellNamed(i + 1);
    }
    TrapComesBack(community, t);
  }

  lemma FieldComesBack(community: seq<Byte>, t: Trap, i: nat)
    requires Fields(t) && i < 8
    ensures ValueIn(Expected(community, t), i + 1) == Some(Received(t.bindings[i].value))
  {
    assert Expected(community, t).bindings[i + 2] == ReceivedBinding(t.bindings[i]);
  }

  /** What an alert is about: the names it carries, the state, the window's counts, the window and the uptime. */
  datatype News = News(host: seq<Byte>, iface: seq<Byte>, busiest: seq<Byte>, state: State, w: W.Counts, window: nat,
                       uptime: nat)

  /** The message tells all of it, each number up to its 32-bit cap. */
  predicate Understood(m: Message, n: News) {
    && StateIn(m) == Some(n.state)
    && UptimeIn(m) == Some(Capped(n.uptime))
    && ValueIn(m, 1) == Some(Str(n.host)) && ValueIn(m, 2) == Some(Str(n.iface))
    && ValueIn(m, 3) == Some(Str(WordFor(n.state)))
    && ValueIn(m, 4) == Some(Count(Capped(n.w.requests)))
    && ValueIn(m, 5) == Some(Count(Capped(n.w.replies)))
    && ValueIn(m, 6) == Some(Count(Capped(n.w.fileReads)))
    && ValueIn(m, 7) == Some(Count(Capped(n.window)))
    && ValueIn(m, 8) == Some(Str(n.busiest))
  }

  /** A trap about this news. */
  ghost predicate IsAlert(t: Trap, n: News) {
    && Fields(t) && t.which == TrapNumber(n.state) && t.uptimeTicks == n.uptime
    && t.bindings[0].value == Str(n.host) && t.bindings[1].value == Str(n.iface)
    && t.bindings[2].value == Str(WordFor(n.state))
    && t.bindings[3].value == Count(n.w.requests) && t.bindings[4].value == Count(n.w.replies)
    && t.bindings[5].value == Count(n.w.fileReads) && t.bindings[6].value == Count(n.window)
    && t.bindings[7].value == Str(n.busiest)
  }

  lemma BuildMakesAlerts(host: seq<Byte>, iface: seq<Byte>, busiest: seq<Byte>, state: State, w: W.Counts, window: nat,
                         at: nat, began: nat)
    ensures IsAlert(Build(host, iface, busiest, state, w, window, at, began),
                    News(host, iface, busiest, state, w, window, if at < began then 0 else 100 * (at - began)))
  {
    WordsAgree(state);
  }

  /** Every alert tells its receiver the news it was built from. */
  lemma AlertIsUnderstood(community: seq<Byte>, t: Trap, n: News)
    requires IsAlert(t, n) && |Datagram(community, t)| < 0x1_0000_0000_0000_0000
    ensures var m := ReadMessage(Datagram(community, t));
            m.Some? && m.value.community == community && Understood(m.value, n)
  {
    FieldsComeBack(community, t);
    ExpectedIsUnderstood(community, t, n);
  }

  lemma ExpectedIsUnderstood(community: seq<Byte>, t: Trap, n: News)
    requires IsAlert(t, n)
    ensures Understood(Expected(community, t), n)
  {
    ExpectedTells(community, t, n.state);
    FieldComesBack(community, t, 0);
    FieldComesBack(community, t, 1);
    FieldComesBack(community, t, 2);
    FieldComesBack(community, t, 3);
    FieldComesBack(community, t, 4);
    FieldComesBack(community, t, 5);
    FieldComesBack(community, t, 6);
    FieldComesBack(community, t, 7);
  }

  lemma ExpectedTells(community: seq<Byte>, t: Trap, state: State)
    requires t.which == TrapNumber(state)
    ensures StateIn(Expected(community, t)) == Some(state)
    ensures UptimeIn(Expected(community, t)) == Some(Capped(t.uptimeTicks))
  {
    var arcs := OWN_NAME + [t.which];
    assert arcs[7] == t.which;
    assert (OWN_NAME + [1])[7] == 1 && (OWN_NAME + [2])[7] == 2 && (OWN_NAME + [3])[7] == 3;
  }

  /** The trap a report on the last turn sends; the names of host, interface and flow are the caller's. */
  ghost function AlertFor(cfg: M.Config, began: nat, ticks: seq<M.Tick>, host: seq<Byte>, iface: seq<Byte>, busiest: seq<Byte>): Trap
    requires ticks != []
  {
    Build(host, iface, busiest, WorstOf(M.Verdicts(cfg, ticks)), M.WindowShown(cfg, began, false, ticks), cfg.window,
          Last(ticks).check, began)
  }

  /** The news of a report on the last turn. */
  ghost function NewsOf(cfg: M.Config, began: nat, ticks: seq<M.Tick>, host: seq<Byte>, iface: seq<Byte>, busiest: seq<Byte>): News
    requires ticks != []
  {
    News(host, iface, busiest, WorstOf(M.Verdicts(cfg, ticks)), M.WindowShown(cfg, began, false, ticks), cfg.window,
         if Last(ticks).check < began then 0 else 100 * (Last(ticks).check - began))
  }

  lemma AlertIsRead(cfg: M.Config, began: nat, ticks: seq<M.Tick>, community: seq<Byte>,
                    host: seq<Byte>, iface: seq<Byte>, busiest: seq<Byte>)
    requires ticks != []
    requires |Datagram(community, AlertFor(cfg, began, ticks, host, iface, busiest))| < 0x1_0000_0000_0000_0000
    ensures var m := ReadMessage(Datagram(community, AlertFor(cfg, began, ticks, host, iface, busiest)));
            m.Some? && Understood(m.value, NewsOf(cfg, began, ticks, host, iface, busiest))
  {
    var n := NewsOf(cfg, began, ticks, host, iface, busiest);
    BuildMakesAlerts(host, iface, busiest, n.state, n.w, cfg.window, Last(ticks).check, began);
    AlertIsUnderstood(community, AlertFor(cfg, began, ticks, host, iface, busiest), n);
  }

  lemma ShownCounts(cfg: M.Config, began: nat, ticks: seq<M.Tick>)
    requires ticks != [] && T.ClockForward(ticks)
    ensures var w, now, seconds := M.WindowShown(cfg, began, false, ticks), Last(ticks).check, Max(cfg.window, 1);
            && w.requests == T.CountFrames(ticks, P.ClientRequest, seconds, now)
            && w.replies == T.CountFrames(ticks, P.ServerReply, seconds, now)
            && w.fileReads == T.CountFrames(ticks, P.TftpRequest, seconds, now)
  {
    T.ShownWindowIsTheLastSeconds(cfg, began, false, ticks, P.ClientRequest);
    T.ShownWindowIsTheLastSeconds(cfg, began, false, ticks, P.ServerReply);
    T.ShownWindowIsTheLastSeconds(cfg, began, false, ticks, P.TftpRequest);
  }

  /** What a receiver learns from a report's alert is the state and the window counts of that report's own line. */
  lemma AlertRepeatsTheReport(cfg: M.Config, began: nat, ticks: seq<M.Tick>, community: seq<Byte>,
                              host: seq<Byte>, iface: seq<Byte>, busiest: seq<Byte>)
    requires M.IsReport(cfg, began, ticks)
    requires |Datagram(community, AlertFor(cfg, began, ticks, host, iface, busiest))| < 0x1_0000_0000_0000_0000
    ensures var m := ReadMessage(Datagram(community, AlertFor(cfg, began, ticks, host, iface, busiest)));
            var lines := M.Lines(cfg, began, false, ticks);
            && m.Some? && lines != [] && Last(lines).Report?
            && StateIn(m.value) == Some(Last(lines).state)
            && ValueIn(m.value, 4) == Some(Count(Capped(Last(lines).window.requests)))
            && ValueIn(m.value, 5) == Some(Count(Capped(Last(lines).window.replies)))
            && ValueIn(m.value, 6) == Some(Count(Capped(Last(lines).window.fileReads)))
  {
    AlertIsRead(cfg, began, ticks, community, host, iface, busiest);
    M.ReportingTurn(cfg, began, false, ticks);
  }

  /** The counts of a message are the frames of the last window of seconds. */
  ghost predicate TellsCounts(m: Message, ticks: seq<M.Tick>, seconds: nat, now: nat) {
    && ValueIn(m, 4) == Some(Count(Capped(T.CountFrames(ticks, P.ClientRequest, seconds, now))))
    && ValueIn(m, 5) == Some(Count(Capped(T.CountFrames(ticks, P.ServerReply, seconds, now))))
    && ValueIn(m, 6) == Some(Count(Capped(T.CountFrames(ticks, P.TftpRequest, seconds, now))))
  }

  /**
   From the octets of an alert back to the frames: its receiver reads Quiet exactly when some
   interface had been silent beyond its allowance since its last request, whenever that was,
   and reads as counts the frames of the last window of seconds, each up to the 32-bit cap.
   */
  lemma AlertTellsTheTraffic(cfg: M.Config, began: nat, ticks: seq<M.Tick>, community: seq<Byte>,
                             host: seq<Byte>, iface: seq<Byte>, busiest: seq<Byte>)
    requires M.IsReport(cfg, began, ticks) && T.ClockForward(ticks)
    requires |Datagram(community, AlertFor(cfg, began, ticks, host, iface, busiest))| < 0x1_0000_0000_0000_0000
    ensures var m := ReadMessage(Datagram(community, AlertFor(cfg, began, ticks, host, iface, busiest)));
            && m.Some?
            && (StateIn(m.value) == Some(Quiet) <==> exists g :: A.SilentBeyond(ticks, g, cfg.IdleSeconds(g)))
            && TellsCounts(m.value, ticks, Max(cfg.window, 1), Last(ticks).check)
  {
    AlertIsRead(cfg, began, ticks, community, host, iface, busiest);
    ShownCounts(cfg, began, ticks);
    A.PlantQuietExactly(cfg, ticks);
  }
}
