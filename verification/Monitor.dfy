/** src/capture.rs: the loop that reads frames, counts them and reports, without its I/O. */
module Monitor {
  import opened Common
  import opened Packet
  import W = SlidingWindow
  import R = RelayTable
  import opened Judgement
  import opened Adaptation

  /** `perRelay` is keyed by the address its text spells; `hasDestination` is a trap target or a usable mail relay. */
  datatype Config = Config(
    window: nat,
    reportEvery: nat,
    perRelay: map<R.Gi, nat>,
    idleSeconds: nat,
    minAnswered: real,
    resendAfter: nat,
    hasDestination: bool)
  {
    function IdleSeconds(gi: R.Gi): nat {
      if gi in perRelay then perRelay[gi] else idleSeconds
    }

    function Window(): (w: nat)
      ensures w >= 1
    {
      Common.Max(window, 1)
    }

    function Every(): (n: nat)
      ensures n >= 1
    {
      Common.Max(reportEvery, 1)
    }
  }

  /**
   One turn of the loop: the clock at its top, the frame read if there was one, the clocks
   when it was counted, and the clock when the report was considered.
   */
  datatype Tick = Tick(start: nat, frame: Option<seq<Byte>>, at: nat, ms: nat, check: nat)

  /** What a report says of the relays: each row, how many requests wait, and the unrelayed row. */
  datatype RelayLines = RelayLines(rows: seq<(R.Gi, R.Relay)>, waiting: nat, unrelayed: R.Relay)

  /** One thing the run says; `busiest` is the flow an alert names. */
  datatype Line =
    | Report(at: nat, window: W.Counts, verdicts: seq<RelayVerdict>, state: State, relays: RelayLines,
             flows: seq<(W.Flow, W.Dest)>, told: bool, busiest: Option<W.Flow>)
    | Progress(at: nat, window: W.Counts)

  // What a run of turns amounts to, component by component.

  function FrameSeen(tick: Tick): Option<Seen> {
    if tick.frame.Some? then ReadOf(tick.frame.value) else None
  }

  function FlowOf(s: Seen): W.Flow {
    W.Flow(s.src, s.dst, s.gi)
  }

  function RelayEvent(s: Seen, tick: Tick): R.Event {
    match s.kind
    case ClientRequest => R.Request(s.gi, s.xid, tick.at, tick.ms)
    case ServerReply => R.Reply(s.gi, s.xid, tick.at, tick.ms)
    case TftpRequest => R.TftpRequest(tick.at)
    case TftpReply => R.TftpSend(tick.at)
  }

  function RelayPart(tick: Tick): seq<R.Event> {
    if FrameSeen(tick).Some? then [RelayEvent(FrameSeen(tick).value, tick)] else []
  }

  /** Everything the relay table is told. */
  function RelayEvents(ticks: seq<Tick>): seq<R.Event> {
    if ticks == [] then [] else RelayEvents(Front(ticks)) + RelayPart(Last(ticks))
  }

  /** When the next report falls due. */
  function NextReport(cfg: Config, began: nat, ticks: seq<Tick>): nat
    decreases |ticks|, 1
  {
    if ticks == [] then began + cfg.Every()
    else if IsReport(cfg, began, ticks) then Last(ticks).check + cfg.Every()
    else NextReport(cfg, began, Front(ticks))
  }

  /** The last turn reports. */
  predicate IsReport(cfg: Config, began: nat, ticks: seq<Tick>)
    decreases |ticks|, 0
  {
    ticks != [] && Last(ticks).check >= NextReport(cfg, began, Front(ticks))
  }

  function VerdictOn(cfg: Config, gi: R.Gi, r: R.Relay, at: nat): RelayVerdict {
    JudgeRelay(r.requests, r.replies, r.IdleFor(at), cfg.IdleSeconds(gi), cfg.minAnswered)
  }

  function JudgeEach(cfg: Config, rows: seq<(R.Gi, R.Relay)>, at: nat): (verdicts: seq<RelayVerdict>)
    ensures |verdicts| == |rows|
    ensures forall i :: 0 <= i < |rows| ==> verdicts[i] == VerdictOn(cfg, rows[i].0, rows[i].1, at)
  {
    seq(|rows|, i requires 0 <= i < |rows| => VerdictOn(cfg, rows[i].0, rows[i].1, at))
  }

  function Verdicts(cfg: Config, ticks: seq<Tick>): seq<RelayVerdict>
    requires ticks != []
  {
    JudgeEach(cfg, R.EachOf(R.Run(RelayEvents(ticks))), Last(ticks).check)
  }

  /** Everything the repeat gate is asked: each report, when there is anybody to tell. */
  ghost function Observations(cfg: Config, began: nat, ticks: seq<Tick>): seq<Sighting> {
    if ticks == [] then []
    else
      Observations(cfg, began, Front(ticks))
      + if IsReport(cfg, began, ticks) && cfg.hasDestination
        then [Sighting(WorstOf(Verdicts(cfg, ticks)), Last(ticks).check)]
        else []
  }

  ghost function Told(cfg: Config, began: nat, ticks: seq<Tick>): bool {
    && IsReport(cfg, began, ticks)
    && cfg.hasDestination
    && Last(Sent(Observations(cfg, began, ticks), cfg.resendAfter))
  }

  function AddPart(tick: Tick): seq<W.Event> {
    if FrameSeen(tick).Some? then [W.Add(FrameSeen(tick).value.kind, FlowOf(FrameSeen(tick).value), tick.at)] else []
  }

  /** A report reads the window once and the flows once, or twice when somebody is told; progress reads the window. */
  ghost function ReadPart(cfg: Config, began: nat, adapting: bool, ticks: seq<Tick>): seq<W.Event> {
    if !IsReport(cfg, began, ticks) then []
    else
      var x := W.Expire(Last(ticks).check);
      if adapting then [x] else if Told(cfg, began, ticks) then [x, x, x] else [x, x]
  }

  /** Everything the counters are told. */
  ghost function WindowEvents(cfg: Config, began: nat, adapting: bool, ticks: seq<Tick>): seq<W.Event> {
    if ticks == [] then []
    else
      WindowEvents(cfg, began, adapting, Front(ticks)) + AddPart(Last(ticks)) + ReadPart(cfg, began, adapting, ticks)
  }

  /** The window a report on the last turn shows. */
  ghost function WindowShown(cfg: Config, began: nat, adapting: bool, ticks: seq<Tick>): W.Counts
    requires ticks != []
  {
    var h := WindowEvents(cfg, began, adapting, Front(ticks)) + AddPart(Last(ticks));
    W.SumBuckets(W.Run(cfg.Window(), h + [W.Expire(Last(ticks).check)]).buckets)
  }

  function RelayLinesOf(t: R.Table): RelayLines {
    RelayLines(R.EachOf(t), |t.pending|, t.unrelayed)
  }

  /** The flows a report on the last turn lists, having read the window first. */
  ghost function FlowsShown(cfg: Config, began: nat, ticks: seq<Tick>): seq<(W.Flow, W.Dest)>
    requires ticks != []
  {
    var h, x := WindowEvents(cfg, began, false, Front(ticks)) + AddPart(Last(ticks)), W.Expire(Last(ticks).check);
    W.Listing(W.Run(cfg.Window(), h + [x] + [x]).flows)
  }

  function FirstFlow(rows: seq<(W.Flow, W.Dest)>): Option<W.Flow> {
    if rows == [] then None else Some(rows[0].0)
  }

  /** The flow an alert on the last turn names, read once more after the report's own reads. */
  ghost function BusiestShown(cfg: Config, began: nat, ticks: seq<Tick>): Option<W.Flow> {
    if Told(cfg, began, ticks)
    then FirstFlow(W.Listing(W.Run(cfg.Window(), WindowEvents(cfg, began, false, ticks)).flows))
    else None
  }

  ghost function LineOf(cfg: Config, began: nat, adapting: bool, ticks: seq<Tick>): Line
    requires ticks != []
  {
    var shown := WindowShown(cfg, began, adapting, ticks);
    if adapting then Progress(Last(ticks).check, shown)
    else
      Report(Last(ticks).check, shown, Verdicts(cfg, ticks), WorstOf(Verdicts(cfg, ticks)),
             RelayLinesOf(R.Run(RelayEvents(ticks))), FlowsShown(cfg, began, ticks),
             Told(cfg, began, ticks), BusiestShown(cfg, began, ticks))
  }

  /** Everything the run says, line by line. */
  ghost function Lines(cfg: Config, began: nat, adapting: bool, ticks: seq<Tick>): seq<Line> {
    if ticks == [] then []
    else
      Lines(cfg, began, adapting, Front(ticks))
      + if IsReport(cfg, began, ticks) then [LineOf(cfg, began, adapting, ticks)] else []
  }

  /** The turn finds the time up. */
  predicate Over(tick: Tick, began: nat, deadline: Option<nat>) {
    deadline.Some? && Minus(tick.start, began) >= deadline.value
  }

  /** A measuring run ends with its minutes; any other when it was told to, if it was. */
  function Deadline(runFor: Option<nat>, adaptation: Option<nat>): Option<nat> {
    if adaptation.Some? then Some(adaptation.value * 60) else runFor
  }

  /** How many turns are taken: up to the first that finds the time up. */
  function Turns(ticks: seq<Tick>, began: nat, deadline: Option<nat>): (n: nat)
    ensures n <= |ticks|
    ensures forall i :: 0 <= i < n ==> !Over(ticks[i], began, deadline)
    ensures n < |ticks| ==> Over(ticks[n], began, deadline)
  {
    if ticks == [] then 0
    else
      var n := Turns(Front(ticks), began, deadline);
      if n == |ticks| - 1 && !Over(Last(ticks), began, deadline) then n + 1 else n
  }

  /**
   `n` is how many turns a run takes: those before its time is up, which for a measuring run
   is its minutes, for any other the seconds it was given, and never when it was given none.
   */
  ghost predicate Watches(ticks: seq<Tick>, n: nat, began: nat, runFor: Option<nat>, adaptation: Option<nat>) {
    && n <= |ticks|
    && (adaptation.Some? ==> EndsAt(ticks, n, began, 60 * adaptation.value))
    && (adaptation.None? && runFor.Some? ==> EndsAt(ticks, n, began, runFor.value))
    && (adaptation.None? && runFor.None? ==> n == |ticks|)
  }

  /** Each of the first `n` turns starts less than `seconds` after `began`, and the next one does not. */
  ghost predicate EndsAt(ticks: seq<Tick>, n: nat, began: nat, seconds: nat)
    requires n <= |ticks|
  {
    && (forall i :: 0 <= i < n ==> seconds > 0 && ticks[i].start < began + seconds)
    && (n < |ticks| ==> seconds == 0 || ticks[n].start >= began + seconds)
  }

  /** There is exactly one such number. */
  lemma TurnsAreWatched(ticks: seq<Tick>, n: nat, began: nat, runFor: Option<nat>, adaptation: Option<nat>)
    ensures Watches(ticks, n, began, runFor, adaptation) <==> n == Turns(ticks, began, Deadline(runFor, adaptation))
  {
    var deadline := Deadline(runFor, adaptation);
    forall i | 0 <= i < |ticks|
      ensures Over(ticks[i], began, deadline) <==>
        deadline.Some? && (deadline.value == 0 || ticks[i].start >= began + deadline.value)
    {
    }
    if Watches(ticks, n, began, runFor, adaptation) {
      TurnsStopThere(ticks, began, deadline, n);
    }
  }

  /** The totals a run closes with. */
  ghost function TotalsShown(cfg: Config, began: nat, ticks: seq<Tick>): W.Counts {
    W.Run(cfg.Window(), WindowEvents(cfg, began, false, ticks)).total
  }

  /** The whole run: every turn until the deadline, then the suggestions if this was a measuring run, else the totals. */
  method Run(ticks: seq<Tick>, cfg: Config, began: nat, runFor: Option<nat>, adaptation: Option<nat>)
    returns (lines: seq<Line>, suggestions: Option<seq<Suggestion>>, closing: Option<W.Counts>)
    ensures exists n: nat :: Watches(ticks, n, began, runFor, adaptation)
    ensures forall n: nat :: Watches(ticks, n, began, runFor, adaptation) ==>
      && lines == Lines(cfg, began, adaptation.Some?, ticks[..n])
      && suggestions == (if adaptation.Some? then Some(Suggest(R.Run(RelayEvents(ticks[..n])))) else None)
      && closing == if adaptation.Some? then None else Some(TotalsShown(cfg, began, ticks[..n]))
  {
    var counts := new W.Counters(cfg.window);
    var relays := new R.Relays();
    var repeats := new Repeats(cfg.resendAfter);
    lines := Watch(counts, relays, repeats, ticks, cfg, began, Deadline(runFor, adaptation), adaptation.Some?);
    suggestions, closing := None, None;
    if adaptation.Some? {
      suggestions := Some(Suggest(R.Table(relays.byGi, relays.unrelayed, relays.pending, relays.sweptMs)));
    } else {
      closing := Some(counts.totals);
    }
    ghost var taken := Turns(ticks, began, Deadline(runFor, adaptation));
    TurnsAreWatched(ticks, taken, began, runFor, adaptation);
    forall n: nat | Watches(ticks, n, began, runFor, adaptation)
      ensures n == taken
    {
      TurnsAreWatched(ticks, n, began, runFor, adaptation);
    }
  }

  /** The loop of the run. */
  method Watch(counts: W.Counters, relays: R.Relays, repeats: Repeats,
               ticks: seq<Tick>, cfg: Config, began: nat, deadline: Option<nat>, adapting: bool)
    returns (lines: seq<Line>)
    requires InStep(counts, relays, repeats, cfg, began, adapting, [])
    modifies counts, relays, repeats
    ensures var watched := ticks[..Turns(ticks, began, deadline)];
            && InStep(counts, relays, repeats, cfg, began, adapting, watched)
            && lines == Lines(cfg, began, adapting, watched)
  {
    var nextReport := began + cfg.Every();
    lines := [];
    ghost var past: seq<Tick> := [];
    var done := 0;
    while done < |ticks| && !Over(ticks[done], began, deadline)
      invariant done <= |ticks| && Taken(ticks, began, deadline, done, past)
      invariant InStep(counts, relays, repeats, cfg, began, adapting, past)
      invariant nextReport == NextReport(cfg, began, past) && lines == Lines(cfg, began, adapting, past)
    {
      TakenStep(ticks, began, deadline, done, past);
      nextReport, lines := Turn(counts, relays, repeats, cfg, adapting, nextReport, lines, ticks[done], began, past);
      past := past + [ticks[done]];
      done := done + 1;
    }
    TakenIsWatched(ticks, began, deadline, done, past);
  }

  /** The first `done` turns, none of which found the time up. */
  ghost predicate Taken(ticks: seq<Tick>, began: nat, deadline: Option<nat>, done: nat, past: seq<Tick>)
    requires done <= |ticks|
  {
    past == ticks[..done] && forall i :: 0 <= i < done ==> !Over(ticks[i], began, deadline)
  }

  lemma TakenStep(ticks: seq<Tick>, began: nat, deadline: Option<nat>, done: nat, past: seq<Tick>)
    requires done < |ticks| && Taken(ticks, began, deadline, done, past) && !Over(ticks[done], began, deadline)
    ensures Taken(ticks, began, deadline, done + 1, past + [ticks[done]])
  {
  }

  lemma TakenIsWatched(ticks: seq<Tick>, began: nat, deadline: Option<nat>, done: nat, past: seq<Tick>)
    requires done <= |ticks| && Taken(ticks, began, deadline, done, past)
    requires done < |ticks| ==> Over(ticks[done], began, deadline)
    ensures past == ticks[..Turns(ticks, began, deadline)]
  {
    TurnsStopThere(ticks, began, deadline, done);
  }

  lemma {:induction false} TurnsStopThere(ticks: seq<Tick>, began: nat, deadline: Option<nat>, done: nat)
    requires done <= |ticks|
    requires forall i :: 0 <= i < done ==> !Over(ticks[i], began, deadline)
    requires done < |ticks| ==> Over(ticks[done], began, deadline)
    ensures Turns(ticks, began, deadline) == done
  {
    if ticks != [] {
      var p := Front(ticks);
      TurnsStopThere(p, began, deadline, Min(done, |p|));
    }
  }

  /** Every part of the monitor has been told exactly what these turns amount to for it. */
  ghost predicate InStep(counts: W.Counters, relays: R.Relays, repeats: Repeats,
                         cfg: Config, began: nat, adapting: bool, ticks: seq<Tick>)
    reads counts, relays, repeats
  {
    && counts.Valid() && counts.window == cfg.Window()
    && relays.Valid()
    && repeats.Valid() && repeats.after == cfg.resendAfter
    && counts.history == WindowEvents(cfg, began, adapting, ticks)
    && relays.history == RelayEvents(ticks)
    && (adapting || repeats.seen == Observations(cfg, began, ticks))
  }

  /** One turn of the loop: count the frame, and report if a report is due. */
  method Turn(counts: W.Counters, relays: R.Relays, repeats: Repeats, cfg: Config, adapting: bool,
              nextReport: nat, soFar: seq<Line>, tick: Tick, ghost began: nat, ghost past: seq<Tick>)
    returns (next: nat, lines: seq<Line>)
    requires InStep(counts, relays, repeats, cfg, began, adapting, past)
    requires nextReport == NextReport(cfg, began, past) && soFar == Lines(cfg, began, adapting, past)
    modifies counts, relays, repeats
    ensures InStep(counts, relays, repeats, cfg, began, adapting, past + [tick])
    ensures next == NextReport(cfg, began, past + [tick]) && lines == Lines(cfg, began, adapting, past + [tick])
  {
    ghost var ticks := past + [tick];
    assert Front(ticks) == past;
    CountFrame(counts, relays, tick);
    next, lines := nextReport, soFar;
    if tick.check >= nextReport {
      next := tick.check + cfg.Every();
      lines := Say(counts, relays, repeats, cfg, adapting, soFar, tick.check, began, ticks);
    } else {
      SilentTurn(cfg, began, adapting, ticks);
    }
  }

  lemma ReportingTurn(cfg: Config, began: nat, adapting: bool, past: seq<Tick>)
    requires past != [] && IsReport(cfg, began, past)
    ensures Lines(cfg, began, adapting, past) == Lines(cfg, began, adapting, Front(past)) + [LineOf(cfg, began, adapting, past)]
  {
  }

  lemma SilentTurn(cfg: Config, began: nat, adapting: bool, past: seq<Tick>)
    requires past != [] && !IsReport(cfg, began, past)
    ensures NextReport(cfg, began, past) == NextReport(cfg, began, Front(past))
    ensures Lines(cfg, began, adapting, past) == Lines(cfg, began, adapting, Front(past))
    ensures Observations(cfg, began, past) == Observations(cfg, began, Front(past))
    ensures WindowEvents(cfg, began, adapting, past) == WindowEvents(cfg, began, adapting, Front(past)) + AddPart(Last(past))
  {
  }

  /** A frame, when one was read and means something, goes to the counters and to the relays. */
  method CountFrame(counts: W.Counters, relays: R.Relays, tick: Tick)
    requires counts.Valid() && relays.Valid()
    modifies counts, relays
    ensures counts.Valid() && relays.Valid()
    ensures counts.history == old(counts.history) + AddPart(tick)
    ensures relays.history == old(relays.history) + RelayPart(tick)
  {
    if tick.frame.None? {
      return;
    }
    var read := Read(tick.frame.value);
    if read.None? {
      return;
    }
    var seen := read.value;
    counts.Add(seen.kind, FlowOf(seen), tick.at);
    match seen.kind {
      case ClientRequest => relays.Request(seen.gi, seen.xid, tick.at, tick.ms);
      case ServerReply => relays.Reply(seen.gi, seen.xid, tick.at, tick.ms);
      case TftpRequest => relays.TftpRequest(tick.at);
      case TftpReply => relays.TftpSend(tick.at);
    }
  }

  /** What is said when a report falls due: a report, or one line of progress while measuring. */
  method Say(counts: W.Counters, relays: R.Relays, repeats: Repeats, cfg: Config, adapting: bool, soFar: seq<Line>,
             at: nat, ghost began: nat, ghost past: seq<Tick>)
    returns (lines: seq<Line>)
    requires past != [] && IsReport(cfg, began, past) && at == Last(past).check
    requires counts.Valid() && relays.Valid() && repeats.Valid()
    requires counts.window == cfg.Window() && repeats.after == cfg.resendAfter
    requires counts.history == WindowEvents(cfg, began, adapting, Front(past)) + AddPart(Last(past))
    requires relays.history == RelayEvents(past)
    requires adapting || repeats.seen == Observations(cfg, began, Front(past))
    requires soFar == Lines(cfg, began, adapting, Front(past))
    modifies counts, repeats
    ensures counts.Valid() && repeats.Valid()
    ensures counts.history == WindowEvents(cfg, began, adapting, past)
    ensures adapting || repeats.seen == Observations(cfg, began, past)
    ensures lines == Lines(cfg, began, adapting, past)
  {
    ghost var before, seen := counts.history, repeats.seen;
    if adapting {
      var w := counts.Window(at);
      lines := soFar + [Progress(at, w)];
      ProgressAgrees(cfg, began, past, before, w, soFar);
    } else {
      var line := MakeReport(counts, relays, repeats, cfg, at);
      lines := soFar + [line];
      ReportAgrees(cfg, began, past, before, counts.history, seen, line, soFar);
    }
  }

  /** A line of progress made that way is the one the run should say. */
  lemma ProgressAgrees(cfg: Config, began: nat, past: seq<Tick>, before: seq<W.Event>, w: W.Counts, soFar: seq<Line>)
    requires past != [] && IsReport(cfg, began, past)
    requires before == WindowEvents(cfg, began, true, Front(past)) + AddPart(Last(past))
    requires w == W.SumBuckets(W.Run(cfg.Window(), before + [W.Expire(Last(past).check)]).buckets)
    requires soFar == Lines(cfg, began, true, Front(past))
    ensures soFar + [Progress(Last(past).check, w)] == Lines(cfg, began, true, past)
    ensures before + [W.Expire(Last(past).check)] == WindowEvents(cfg, began, true, past)
  {
    ReportingTurn(cfg, began, true, past);
  }

  /** What a report reads, with `before` as the counters' history and `seen` as the gate's, going on to `after`. */
  ghost predicate IsMade(cfg: Config, now: nat, table: R.Table, before: seq<W.Event>, after: seq<W.Event>,
                         seen: seq<Sighting>, line: Line)
    requires line.Report?
  {
    var x := W.Expire(now);
    && after == before + [x] + [x] + (if line.told then [x] else [])
    && line.at == now
    && line.window == W.SumBuckets(W.Run(cfg.Window(), before + [x]).buckets)
    && line.flows == W.Listing(W.Run(cfg.Window(), before + [x] + [x]).flows)
    && line.verdicts == JudgeEach(cfg, R.EachOf(table), now) && line.state == WorstOf(line.verdicts)
    && line.relays == RelayLinesOf(table)
    && line.told == (cfg.hasDestination && Last(Sent(seen + [Sighting(line.state, now)], cfg.resendAfter)))
    && line.busiest == if line.told then FirstFlow(W.Listing(W.Run(cfg.Window(), after).flows)) else None
  }

  /** One report: read the window, judge every interface, list the flows, and tell somebody if it is due. */
  method MakeReport(counts: W.Counters, relays: R.Relays, repeats: Repeats, cfg: Config, at: nat)
    returns (line: Line)
    requires counts.Valid() && relays.Valid() && repeats.Valid()
    requires counts.window == cfg.Window() && repeats.after == cfg.resendAfter
    modifies counts, repeats
    ensures counts.Valid() && repeats.Valid()
    ensures line.Report? && IsMade(cfg, at, R.Run(relays.history), old(counts.history), counts.history,
                                    old(repeats.seen), line)
    ensures repeats.seen == old(repeats.seen) + if cfg.hasDestination then [Sighting(line.state, at)] else []
  {
    var w, verdicts, state, lines, flows := Survey(counts, relays, cfg, at);
    var told, busiest := Tell(counts, repeats, cfg, state, at);
    line := Report(at, w, verdicts, state, lines, flows, told, busiest);
  }

  /** A report made that way says the line the run should say, and leaves both histories as the run has them. */
  lemma ReportAgrees(cfg: Config, began: nat, past: seq<Tick>, before: seq<W.Event>, after: seq<W.Event>,
                     seen: seq<Sighting>, line: Line, soFar: seq<Line>)
    requires past != [] && IsReport(cfg, began, past) && line.Report?
    requires IsMade(cfg, Last(past).check, R.Run(RelayEvents(past)), before, after, seen, line)
    requires before == WindowEvents(cfg, began, false, Front(past)) + AddPart(Last(past))
    requires seen == Observations(cfg, began, Front(past)) && soFar == Lines(cfg, began, false, Front(past))
    ensures soFar + [line] == Lines(cfg, began, false, past)
    ensures after == WindowEvents(cfg, began, false, past)
    ensures Observations(cfg, began, past) ==
      seen + if cfg.hasDestination then [Sighting(line.state, Last(past).check)] else []
  {
    ObservedAtReport(cfg, began, past, line.state, line.told);
    ReadAtReport(cfg, began, past, before, line.told);
    ReportIsLine(cfg, began, past, before, line);
    ReportingTurn(cfg, began, false, past);
  }

  /** The part of a report every log gets: the window, every verdict and the gravest, the relays and the flows. */
  method Survey(counts: W.Counters, relays: R.Relays, cfg: Config, at: nat)
    returns (w: W.Counts, verdicts: seq<RelayVerdict>, state: State, lines: RelayLines, flows: seq<(W.Flow, W.Dest)>)
    requires counts.Valid() && relays.Valid()
    modifies counts
    ensures counts.Valid()
    ensures var x, h := W.Expire(at), old(counts.history);
            && counts.history == h + [x] + [x]
            && w == W.SumBuckets(W.Run(counts.window, h + [x]).buckets)
            && flows == W.Listing(W.Run(counts.window, h + [x] + [x]).flows)
    ensures verdicts == JudgeEach(cfg, R.EachOf(R.Run(relays.history)), at) && state == WorstOf(verdicts)
    ensures lines == RelayLinesOf(R.Run(relays.history))
  {
    w := counts.Window(at);
    var rows := relays.Each();
    verdicts := JudgeEach(cfg, rows, at);
    state := Worst(verdicts);
    lines := RelayReport(relays);
    flows := counts.ByFlow(at);
  }

  /** The part only somebody told gets: whether the gate lets it through, and the flow it names. */
  method Tell(counts: W.Counters, repeats: Repeats, cfg: Config, state: State, at: nat)
    returns (told: bool, busiest: Option<W.Flow>)
    requires counts.Valid() && repeats.Valid()
    modifies counts, repeats
    ensures counts.Valid() && repeats.Valid()
    ensures repeats.seen == old(repeats.seen) + if cfg.hasDestination then [Sighting(state, at)] else []
    ensures told == (cfg.hasDestination && Last(Sent(old(repeats.seen) + [Sighting(state, at)], repeats.after)))
    ensures counts.history == old(counts.history) + if told then [W.Expire(at)] else []
    ensures busiest == if told then FirstFlow(W.Listing(W.Run(counts.window, counts.history).flows)) else None
  {
    told := ShouldTell(cfg, repeats, state, at);
    busiest := NameBusiest(counts, told, at);
  }

  lemma ReportIsLine(cfg: Config, began: nat, past: seq<Tick>, before: seq<W.Event>, line: Line)
    requires past != [] && before == WindowEvents(cfg, began, false, Front(past)) + AddPart(Last(past))
    requires line.Report? && line.at == Last(past).check
    requires var x := W.Expire(Last(past).check);
             && line.window == W.SumBuckets(W.Run(cfg.Window(), before + [x]).buckets)
             && line.flows == W.Listing(W.Run(cfg.Window(), before + [x] + [x]).flows)
    requires line.verdicts == Verdicts(cfg, past) && line.state == WorstOf(line.verdicts)
    requires line.relays == RelayLinesOf(R.Run(RelayEvents(past))) && line.told == Told(cfg, began, past)
    requires line.busiest == BusiestShown(cfg, began, past)
    ensures line == LineOf(cfg, began, false, past)
  {
  }

  lemma ObservedAtReport(cfg: Config, began: nat, past: seq<Tick>, state: State, told: bool)
    requires past != [] && IsReport(cfg, began, past) && state == WorstOf(Verdicts(cfg, past))
    requires var seen := Observations(cfg, began, Front(past)) + [Sighting(state, Last(past).check)];
             told == (cfg.hasDestination && Last(Sent(seen, cfg.resendAfter)))
    ensures Observations(cfg, began, past) ==
      if cfg.hasDestination then Observations(cfg, began, Front(past)) + [Sighting(state, Last(past).check)]
      else Observations(cfg, began, Front(past))
    ensures told == Told(cfg, began, past)
  {
    assert Observations(cfg, began, Front(past)) + [] == Observations(cfg, began, Front(past));
  }

  lemma ReadAtReport(cfg: Config, began: nat, past: seq<Tick>, before: seq<W.Event>, told: bool)
    requires past != [] && IsReport(cfg, began, past) && told == Told(cfg, began, past)
    ensures var x := W.Expire(Last(past).check);
            before + [x] + [x] + (if told then [x] else []) == before + ReadPart(cfg, began, false, past)
  {
  }

  /** An alert names the busiest flow, which reads the flows once more. */
  method NameBusiest(counts: W.Counters, told: bool, at: nat) returns (busiest: Option<W.Flow>)
    requires counts.Valid()
    modifies counts
    ensures counts.Valid()
    ensures counts.history == old(counts.history) + if told then [W.Expire(at)] else []
    ensures busiest == if told then FirstFlow(W.Listing(W.Run(counts.window, counts.history).flows)) else None
  {
    busiest := None;
    if told {
      var listed := counts.ByFlow(at);
      busiest := FirstFlow(listed);
    }
  }

  /** The lines about the relays. */
  method RelayReport(relays: R.Relays) returns (lines: RelayLines)
    requires relays.Valid()
    ensures lines == RelayLinesOf(R.Run(relays.history))
  {
    var rows := relays.Each();
    var waiting := relays.Waiting();
    lines := RelayLines(rows, waiting, relays.unrelayed);
  }

  /** The gate is only consulted when there is somewhere to send. */
  method ShouldTell(cfg: Config, repeats: Repeats, state: State, at: nat) returns (told: bool)
    requires repeats.Valid()
    modifies repeats
    ensures repeats.Valid()
    ensures !cfg.hasDestination ==> !told && repeats.seen == old(repeats.seen)
    ensures cfg.hasDestination ==>
      && repeats.seen == old(repeats.seen) + [Sighting(state, at)]
      && told == Last(Sent(repeats.seen, repeats.after))
  {
    if !cfg.hasDestination {
      return false;
    }
    told := repeats.ShouldSend(state, at);
  }
}
