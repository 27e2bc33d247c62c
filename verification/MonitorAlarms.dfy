/** When the monitor raises an alarm, over whole runs: exactly when it should, promptly, and never on its own measurements. */
module MonitorAlarms {
  import opened Common
  import opened Packet
  import R = RelayTable
  import opened RelayRows
  import opened Judgement
  import opened Adaptation
  import opened Monitor
  import opened MonitorTallies

  // When a relay asks.

  /** The seconds at which requests from `g` were read. */
  ghost function Asks(ticks: seq<Tick>, g: R.Gi): seq<nat> {
    Readings(RelayEvents(ticks), Some(g), Requested)
  }

  predicate AsksFor(t: Tick, g: R.Gi) {
    FrameSeen(t).Some? && FrameSeen(t).value.kind == ClientRequest && FrameSeen(t).value.gi == Some(g)
  }

  lemma AsksStep(ticks: seq<Tick>, g: R.Gi)
    requires ticks != []
    ensures Asks(ticks, g) == Asks(Front(ticks), g) + if AsksFor(Last(ticks), g) then [Last(ticks).at] else []
  {
    var h, part := RelayEvents(Front(ticks)), RelayPart(Last(ticks));
    if part != [] {
      assert h + part == h + [part[0]];
      TapeAppend(h, part[0], Some(g));
    } else {
      assert h + part == h;
    }
  }

  lemma {:induction false} AsksBy(ticks: seq<Tick>, g: R.Gi, high: nat)
    requires forall i :: 0 <= i < |ticks| ==> ticks[i].at <= high
    ensures forall i :: 0 <= i < |Asks(ticks, g)| ==> Asks(ticks, g)[i] <= high
  {
    if ticks != [] {
      AsksBy(Front(ticks), g, high);
      AsksStep(ticks, g);
    }
  }

  /** What is known of a relay at turn `n` is the start of what the whole run knows. */
  lemma {:induction false} AsksPrefix(ticks: seq<Tick>, n: nat, g: R.Gi)
    requires 0 < n <= |ticks| && ClockForward(ticks)
    ensures Asks(ticks[..n], g) <= Asks(ticks, g)
    ensures forall i :: 0 <= i < |Asks(ticks[..n], g)| ==> Asks(ticks[..n], g)[i] <= ticks[n - 1].check
    ensures forall i :: |Asks(ticks[..n], g)| <= i < |Asks(ticks, g)| ==> ticks[n - 1].check <= Asks(ticks, g)[i]
    decreases |ticks|
  {
    if n == |ticks| {
      assert ticks[..n] == ticks;
      AsksBy(ticks, g, ticks[n - 1].check);
    } else {
      AsksStep(ticks, g);
      ForwardFront(ticks);
      SamePrefix(ticks, n);
      AsksPrefix(Front(ticks), n, g);
    }
  }

  /** How long `g` has been silent at the last turn's check, if it ever asked. */
  ghost predicate SilentBeyond(ticks: seq<Tick>, g: R.Gi, allowed: nat)
    requires ticks != []
  {
    Asks(ticks, g) != [] && Minus(Last(ticks).check, Last(Asks(ticks, g))) > allowed
  }

  /** The row a relay is judged by counts its own requests and the replies credited to it. */
  lemma RelayCounts(ticks: seq<Tick>, g: R.Gi)
    ensures var r := R.Run(RelayEvents(ticks)).Row(Some(g));
            && r.requests == |Asks(ticks, g)|
            && r.lastRequest == LastOf(Asks(ticks, g))
            && r.replies == |Readings(RelayEvents(ticks), Some(g), Replied)|
  {
    RowsRefineHistory(RelayEvents(ticks), Some(g));
  }

  /** One interface's verdict is Quiet exactly when its own last request is too long ago. */
  lemma RelayQuietExactly(cfg: Config, ticks: seq<Tick>, g: R.Gi)
    requires ticks != []
    ensures VerdictOn(cfg, g, R.Run(RelayEvents(ticks)).Row(Some(g)), Last(ticks).check).state == Quiet
       <==> SilentBeyond(ticks, g, cfg.IdleSeconds(g))
    ensures cfg.IdleSeconds(g) == if g in cfg.perRelay then cfg.perRelay[g] else cfg.idleSeconds
  {
    RelayCounts(ticks, g);
    var r := R.Run(RelayEvents(ticks)).Row(Some(g));
    VerdictMeans(r.requests, r.replies, r.IdleFor(Last(ticks).check), cfg.IdleSeconds(g), cfg.minAnswered);
  }

  lemma QuietVerdictIsSilence(cfg: Config, ticks: seq<Tick>, i: nat)
    requires ticks != [] && i < |Verdicts(cfg, ticks)| && Verdicts(cfg, ticks)[i].state == Quiet
    ensures exists g :: SilentBeyond(ticks, g, cfg.IdleSeconds(g))
  {
    var t := R.Run(RelayEvents(ticks));
    R.EachListsEveryRow(t);
    var g := R.EachOf(t)[i].0;
    RelayQuietExactly(cfg, ticks, g);
    assert SilentBeyond(ticks, g, cfg.IdleSeconds(g));
  }

  lemma SilenceIsQuietVerdict(cfg: Config, ticks: seq<Tick>, g: R.Gi) returns (i: nat)
    requires ticks != [] && SilentBeyond(ticks, g, cfg.IdleSeconds(g))
    ensures i < |Verdicts(cfg, ticks)| && Verdicts(cfg, ticks)[i].state == Quiet
  {
    var h, t := RelayEvents(ticks), R.Run(RelayEvents(ticks));
    RelayQuietExactly(cfg, ticks, g);
    SightedWhenAsking(h, g);
    RowsRefineHistory(h, Some(g));
    R.EachListsEveryRow(t);
    i :| 0 <= i < |R.EachOf(t)| && R.EachOf(t)[i] == (g, t.byGi[g]);
  }

  /** A report calls the plant Quiet exactly when some interface has been silent beyond its own allowance. */
  lemma PlantQuietExactly(cfg: Config, ticks: seq<Tick>)
    requires ticks != []
    ensures WorstOf(Verdicts(cfg, ticks)) == Quiet <==> exists g :: SilentBeyond(ticks, g, cfg.IdleSeconds(g))
  {
    if i :| 0 <= i < |Verdicts(cfg, ticks)| && Verdicts(cfg, ticks)[i].state == Quiet {
      QuietVerdictIsSilence(cfg, ticks, i);
    }
    if g :| SilentBeyond(ticks, g, cfg.IdleSeconds(g)) {
      var i := SilenceIsQuietVerdict(cfg, ticks, g);
    }
  }

  /** Enough requests since the start, and too small a share of replies to them. */
  ghost predicate Neglected(ticks: seq<Tick>, g: R.Gi, minAnswered: real) {
    && |Asks(ticks, g)| >= 5
    && TooFew(|Asks(ticks, g)|, |Readings(RelayEvents(ticks), Some(g), Replied)|, minAnswered)
  }

  lemma RelayUnansweredExactly(cfg: Config, ticks: seq<Tick>, g: R.Gi)
    requires ticks != []
    ensures VerdictOn(cfg, g, R.Run(RelayEvents(ticks)).Row(Some(g)), Last(ticks).check).state == Unanswered
       <==> Neglected(ticks, g, cfg.minAnswered) && !SilentBeyond(ticks, g, cfg.IdleSeconds(g))
  {
    RelayCounts(ticks, g);
    var r := R.Run(RelayEvents(ticks)).Row(Some(g));
    VerdictMeans(r.requests, r.replies, r.IdleFor(Last(ticks).check), cfg.IdleSeconds(g), cfg.minAnswered);
  }

  lemma NeglectIsUnansweredVerdict(cfg: Config, ticks: seq<Tick>, g: R.Gi) returns (i: nat)
    requires ticks != [] && Neglected(ticks, g, cfg.minAnswered) && !SilentBeyond(ticks, g, cfg.IdleSeconds(g))
    ensures i < |Verdicts(cfg, ticks)| && Verdicts(cfg, ticks)[i].state == Unanswered
  {
    var h, t := RelayEvents(ticks), R.Run(RelayEvents(ticks));
    RelayUnansweredExactly(cfg, ticks, g);
    SightedWhenAsking(h, g);
    RowsRefineHistory(h, Some(g));
    R.EachListsEveryRow(t);
    i :| 0 <= i < |R.EachOf(t)| && R.EachOf(t)[i] == (g, t.byGi[g]);
  }

  lemma UnansweredVerdictIsNeglect(cfg: Config, ticks: seq<Tick>, i: nat) returns (g: R.Gi)
    requires ticks != [] && i < |Verdicts(cfg, ticks)| && Verdicts(cfg, ticks)[i].state == Unanswered
    ensures Neglected(ticks, g, cfg.minAnswered)
  {
    var t := R.Run(RelayEvents(ticks));
    R.EachListsEveryRow(t);
    g := R.EachOf(t)[i].0;
    RelayUnansweredExactly(cfg, ticks, g);
  }

  /** Failing that, it calls the plant Unanswered exactly when some interface has been neglected since the start. */
  lemma PlantUnansweredExactly(cfg: Config, ticks: seq<Tick>)
    requires ticks != []
    ensures WorstOf(Verdicts(cfg, ticks)) == Unanswered
       <==> (forall g :: !SilentBeyond(ticks, g, cfg.IdleSeconds(g))) && exists g :: Neglected(ticks, g, cfg.minAnswered)
  {
    PlantQuietExactly(cfg, ticks);
    if i :| 0 <= i < |Verdicts(cfg, ticks)| && Verdicts(cfg, ticks)[i].state == Unanswered {
      var g := UnansweredVerdictIsNeglect(cfg, ticks, i);
    }
    if forall g :: !SilentBeyond(ticks, g, cfg.IdleSeconds(g)) {
      if g :| Neglected(ticks, g, cfg.minAnswered) {
        var i := NeglectIsUnansweredVerdict(cfg, ticks, g);
      }
    }
  }

  lemma {:induction false} SightedWhenAsking(h: seq<R.Event>, g: R.Gi)
    requires Readings(h, Some(g), Requested) != []
    ensures Readings(h, Some(g), Sighted) != []
  {
    var p, e := Front(h), Last(h);
    if !(Owner(p, e) == Some(g)) {
      SightedWhenAsking(p, g);
    }
  }

  // Adaptation is sound on its own traffic.

  /** The configuration holds every number a measuring run over `ticks` suggests. */
  ghost predicate Adopts(cfg: Config, ticks: seq<Tick>) {
    var all := Suggest(R.Run(RelayEvents(ticks)));
    forall i :: 0 <= i < |all| && all[i].idleSeconds.Some? ==>
      all[i].gi in cfg.perRelay && cfg.perRelay[all[i].gi] == all[i].idleSeconds.value
  }

  lemma AdoptedThreshold(cfg: Config, ticks: seq<Tick>, g: R.Gi)
    requires Adopts(cfg, ticks) && |Asks(ticks, g)| >= 2
    ensures var r := R.Run(RelayEvents(ticks)).Row(Some(g));
            Adaptation.Judge(r.requests, r.longestGap) == Some(cfg.IdleSeconds(g))
  {
    var h := RelayEvents(ticks);
    var t, all := R.Run(h), Suggest(R.Run(h));
    RowsRefineHistory(h, Some(g));
    SightedWhenAsking(h, g);
    R.EachListsEveryRow(t);
    var i :| 0 <= i < |R.EachOf(t)| && R.EachOf(t)[i] == (g, t.byGi[g]);
    assert all[i] == SuggestOne(g, t.byGi[g]);
  }

  /** An instant between what is known and what is yet to come is one the threshold covers. */
  lemma CoveredInstant(times: seq<nat>, known: seq<nat>, k: nat, at: nat)
    requires known != [] && known <= times && NeverSilent(times, k)
    requires Last(known) <= at <= Last(times) + k
    requires |known| < |times| ==> at <= times[|known|]
    ensures Minus(at, Last(known)) <= k
  {
    var i := |known| - 1;
    assert known[i] == times[i];
    assert Covered(times, k, i, at);
  }

  /** A relay whose gaps all fit its allowance is silent beyond it at no turn up to its last request and the allowance. */
  lemma CoveredRunIsNeverSilent(ticks: seq<Tick>, n: nat, g: R.Gi, k: nat)
    requires ClockForward(ticks) && 0 < n <= |ticks|
    requires GapsWithin(Asks(ticks, g), k)
    requires Asks(ticks, g) != [] ==> ticks[n - 1].check <= Last(Asks(ticks, g)) + k
    ensures !SilentBeyond(ticks[..n], g, k)
  {
    var times, known := Asks(ticks, g), Asks(ticks[..n], g);
    NeverSilentIsGaps(times, k);
    AsksPrefix(ticks, n, g);
    assert Last(ticks[..n]) == ticks[n - 1];
    if known != [] {
      CoveredInstant(times, known, k, ticks[n - 1].check);
    }
  }

  /**
   Replaying a run with the thresholds measured from it, no report up to the threshold past
   a relay's last request finds that relay Quiet, as long as its longest gap was a day or less.
   */
  lemma MeasuredThresholdNeverCriesWolf(cfg: Config, ticks: seq<Tick>, n: nat, g: R.Gi)
    requires ClockForward(ticks) && 0 < n <= |ticks|
    requires Adopts(cfg, ticks) && |Asks(ticks, g)| >= 2
    requires R.Run(RelayEvents(ticks)).Row(Some(g)).longestGap <= 86_400
    requires ticks[n - 1].check <= Last(Asks(ticks, g)) + cfg.IdleSeconds(g)
    ensures !SilentBeyond(ticks[..n], g, cfg.IdleSeconds(g))
  {
    AdoptedThreshold(cfg, ticks, g);
    RowsRefineHistory(RelayEvents(ticks), Some(g));
    CoveredRunIsNeverSilent(ticks, n, g, cfg.IdleSeconds(g));
  }

  /**
   And on any other run whose gaps are at most three times the longest measured, the threshold
   measured is as quiet, as long as a day did not cut it short.
   */
  lemma MeasuredThresholdFitsOtherRuns(cfg: Config, measured: seq<Tick>, ticks: seq<Tick>, n: nat, g: R.Gi)
    requires ClockForward(ticks) && 0 < n <= |ticks|
    requires Adopts(cfg, measured) && |Asks(measured, g)| >= 2
    requires R.Run(RelayEvents(measured)).Row(Some(g)).longestGap * 3 <= 86_400
    requires GapsWithin(Asks(ticks, g), R.Run(RelayEvents(measured)).Row(Some(g)).longestGap * 3)
    requires Asks(ticks, g) != [] ==> ticks[n - 1].check <= Last(Asks(ticks, g)) + cfg.IdleSeconds(g)
    ensures !SilentBeyond(ticks[..n], g, cfg.IdleSeconds(g))
  {
    AdoptedThreshold(cfg, measured, g);
    CoveredRunIsNeverSilent(ticks, n, g, cfg.IdleSeconds(g));
  }

  /** And if that holds of every relay that asked, the plant as a whole is never called Quiet. */
  lemma MeasuredPlantNeverCriesWolf(cfg: Config, ticks: seq<Tick>, n: nat)
    requires ClockForward(ticks) && 0 < n <= |ticks| && Adopts(cfg, ticks)
    requires forall g :: Asks(ticks, g) != [] ==>
      && |Asks(ticks, g)| >= 2
      && R.Run(RelayEvents(ticks)).Row(Some(g)).longestGap <= 86_400
      && ticks[n - 1].check <= Last(Asks(ticks, g)) + cfg.IdleSeconds(g)
    ensures WorstOf(Verdicts(cfg, ticks[..n])) != Quiet
  {
    PlantQuietExactly(cfg, ticks[..n]);
    forall g
      ensures !SilentBeyond(ticks[..n], g, cfg.IdleSeconds(g))
    {
      AsksPrefix(ticks, n, g);
      if Asks(ticks, g) != [] {
        MeasuredThresholdNeverCriesWolf(cfg, ticks, n, g);
      }
    }
  }

  /** On another run, if every relay that asks in it was measured and keeps to three times its gap, neither is the plant. */
  lemma MeasuredPlantFitsOtherRuns(cfg: Config, measured: seq<Tick>, ticks: seq<Tick>, n: nat)
    requires ClockForward(ticks) && 0 < n <= |ticks| && Adopts(cfg, measured)
    requires forall g :: Asks(ticks, g) != [] ==>
      && |Asks(measured, g)| >= 2
      && R.Run(RelayEvents(measured)).Row(Some(g)).longestGap * 3 <= 86_400
      && GapsWithin(Asks(ticks, g), R.Run(RelayEvents(measured)).Row(Some(g)).longestGap * 3)
      && ticks[n - 1].check <= Last(Asks(ticks, g)) + cfg.IdleSeconds(g)
    ensures WorstOf(Verdicts(cfg, ticks[..n])) != Quiet
  {
    PlantQuietExactly(cfg, ticks[..n]);
    forall g
      ensures !SilentBeyond(ticks[..n], g, cfg.IdleSeconds(g))
    {
      AsksPrefix(ticks, n, g);
      if Asks(ticks, g) != [] {
        MeasuredThresholdFitsOtherRuns(cfg, measured, ticks, n, g);
      }
    }
  }

  /** Three times the longest gap measured, within five minutes and a day. */
  function Threefold(gap: nat): nat {
    if 3 * gap < 300 then 300 else if 3 * gap > 86_400 then 86_400 else 3 * gap
  }

  lemma AdoptedIsThreefold(cfg: Config, measured: seq<Tick>, g: R.Gi, gap: nat)
    requires Adopts(cfg, measured) && |Asks(measured, g)| >= 2 && IsLongestGap(Asks(measured, g), gap)
    ensures cfg.IdleSeconds(g) == Threefold(gap)
  {
    AdoptedThreshold(cfg, measured, g);
    RowsRefineHistory(RelayEvents(measured), Some(g));
  }

  /** Under a threshold measured from one run, a relay is called Quiet in another exactly when silent for longer than that. */
  lemma MeasuredSilenceIsQuietExactly(cfg: Config, measured: seq<Tick>, ticks: seq<Tick>, g: R.Gi, gap: nat)
    requires Adopts(cfg, measured) && |Asks(measured, g)| >= 2 && IsLongestGap(Asks(measured, g), gap)
    requires ticks != []
    ensures VerdictOn(cfg, g, R.Run(RelayEvents(ticks)).Row(Some(g)), Last(ticks).check).state == Quiet
       <==> Asks(ticks, g) != [] && Last(ticks).check > Last(Asks(ticks, g)) + Threefold(gap)
  {
    AdoptedIsThreefold(cfg, measured, g, gap);
    RelayQuietExactly(cfg, ticks, g);
  }

  // Detection is prompt.

  /** After a report at turn `m`, nothing falls due for a whole interval. */
  lemma {:induction false} NotDueAgain(cfg: Config, began: nat, ticks: seq<Tick>, m: nat)
    requires ClockForward(ticks) && 0 < m <= |ticks| && IsReport(cfg, began, ticks[..m])
    ensures NextReport(cfg, began, ticks) >= ticks[m - 1].check + Max(cfg.reportEvery, 1)
    decreases |ticks|
  {
    if m == |ticks| {
      assert ticks[..m] == ticks;
    } else {
      ForwardFront(ticks);
      SamePrefix(ticks, m);
      NotDueAgain(cfg, began, Front(ticks), m);
      ChecksInOrder(ticks, m - 1, |ticks| - 1);
    }
  }

  /** Two reports are never closer than the interval asked for. */
  lemma ReportsAreSpaced(cfg: Config, began: nat, ticks: seq<Tick>, m: nat)
    requires ClockForward(ticks) && 0 < m < |ticks|
    requires IsReport(cfg, began, ticks[..m]) && IsReport(cfg, began, ticks)
    ensures Last(ticks).check >= ticks[m - 1].check + Max(cfg.reportEvery, 1)
  {
    ForwardFront(ticks);
    SamePrefix(ticks, m);
    NotDueAgain(cfg, began, Front(ticks), m);
  }

  /** No report is made before the first interval is over. */
  lemma {:induction false} FirstReportWaits(cfg: Config, began: nat, ticks: seq<Tick>)
    requires IsReport(cfg, began, ticks)
    requires forall i :: 0 <= i < |ticks| ==> began <= ticks[i].check
    ensures Last(ticks).check >= began + Max(cfg.reportEvery, 1)
  {
    NextIsLater(cfg, began, Front(ticks));
  }

  lemma {:induction false} NextIsLater(cfg: Config, began: nat, ticks: seq<Tick>)
    requires forall i :: 0 <= i < |ticks| ==> began <= ticks[i].check
    ensures NextReport(cfg, began, ticks) >= began + Max(cfg.reportEvery, 1)
  {
    if ticks != [] {
      NextIsLater(cfg, began, Front(ticks));
    }
  }

  /** Turns come at most `d` seconds apart, from the start on. */
  ghost predicate Paced(began: nat, ticks: seq<Tick>, d: nat) {
    && (forall i :: 0 <= i < |ticks| ==> began <= ticks[i].at)
    && (forall i {:trigger CheckBefore(began, ticks, i)} ::
          0 <= i < |ticks| ==> ticks[i].check <= CheckBefore(began, ticks, i) + d)
  }

  function CheckBefore(began: nat, ticks: seq<Tick>, i: nat): nat
    requires i <= |ticks|
  {
    if i == 0 then began else ticks[i - 1].check
  }

  lemma PacedFront(began: nat, ticks: seq<Tick>, d: nat)
    requires ticks != [] && Paced(began, ticks, d)
    ensures Paced(began, Front(ticks), d)
    ensures Last(ticks).check <= CheckBefore(began, ticks, |ticks| - 1) + d
  {
    var p := Front(ticks);
    assert forall i :: 0 <= i < |p| ==> p[i] == ticks[i];
    forall i | 0 <= i < |p|
      ensures p[i].check <= CheckBefore(began, p, i) + d
    {
      assert p[i] == ticks[i] && CheckBefore(began, p, i) == CheckBefore(began, ticks, i);
    }
  }

  lemma ChecksInOrder(ticks: seq<Tick>, i: nat, j: nat)
    requires ClockForward(ticks) && i <= j < |ticks|
    ensures ticks[i].check <= ticks[j].check
  {
  }

  /** Once `from` has passed, a report follows within an interval and one turn. */
  lemma {:induction false} ReportFollows(cfg: Config, began: nat, ticks: seq<Tick>, d: nat, from: nat) returns (n: nat)
    requires ClockForward(ticks) && Paced(began, ticks, d) && began <= from
    requires ticks != [] && Last(ticks).check >= from + Max(cfg.reportEvery, 1)
    ensures 0 < n <= |ticks| && IsReport(cfg, began, ticks[..n])
    ensures from < ticks[n - 1].check <= from + Max(cfg.reportEvery, 1) + d
  {
    var p := Front(ticks);
    PacedFront(began, ticks, d);
    if p != [] && Last(p).check >= from + Max(cfg.reportEvery, 1) {
      ForwardFront(ticks);
      n := ReportFollows(cfg, began, p, d, from);
      SamePrefix(ticks, n);
    } else {
      n := FirstLateTurn(cfg, began, ticks, from);
      assert CheckBefore(began, ticks, |ticks| - 1) < from + Max(cfg.reportEvery, 1);
    }
  }

  lemma SamePrefix(ticks: seq<Tick>, n: nat)
    requires 0 < n < |ticks|
    ensures Front(ticks)[..n] == ticks[..n] && Front(ticks)[n - 1] == ticks[n - 1]
  {
  }

  /** The first turn an interval past `from` reports, unless a turn between them already has. */
  lemma FirstLateTurn(cfg: Config, began: nat, ticks: seq<Tick>, from: nat) returns (n: nat)
    requires ClockForward(ticks) && ticks != [] && began <= from
    requires Last(ticks).check >= from + Max(cfg.reportEvery, 1)
    ensures 0 < n <= |ticks| && IsReport(cfg, began, ticks[..n])
    ensures from < ticks[n - 1].check <= Last(ticks).check
  {
    if IsReport(cfg, began, ticks) {
      n := |ticks|;
      assert ticks[..n] == ticks;
    } else {
      n := ReportBefore(cfg, began, Front(ticks), from);
      SamePrefix(ticks, n);
      ChecksInOrder(ticks, n - 1, |ticks| - 1);
    }
  }

  /** If the next report is due later than `from` allows, it is because one was made after `from`. */
  lemma {:induction false} ReportBefore(cfg: Config, began: nat, ticks: seq<Tick>, from: nat) returns (n: nat)
    requires began <= from && NextReport(cfg, began, ticks) > from + Max(cfg.reportEvery, 1)
    ensures 0 < n <= |ticks| && IsReport(cfg, began, ticks[..n]) && from < ticks[n - 1].check
  {
    if IsReport(cfg, began, ticks) {
      n := |ticks|;
      assert ticks[..n] == ticks;
    } else {
      n := ReportBefore(cfg, began, Front(ticks), from);
      assert Front(ticks)[..n] == ticks[..n];
    }
  }

  /** After every report with somebody to tell, the gate remembers the state just reported. */
  lemma GateAfterReport(cfg: Config, began: nat, ticks: seq<Tick>)
    requires IsReport(cfg, began, ticks) && cfg.hasDestination
    ensures var last := Remembered(Observations(cfg, began, ticks), cfg.resendAfter);
            (if last.None? then Working else last.value.state) == WorstOf(Verdicts(cfg, ticks))
  {
    RemembersWhatItSaw(Observations(cfg, began, ticks), cfg.resendAfter);
  }

  /**
   A relay that falls silent is reported: if its last request came at `last`, turns come at
   most `d` seconds apart and the run goes on long enough, some report within its allowance,
   one report interval and one turn calls the plant Quiet, and the gate has been told so.
   */
  lemma SilenceIsReported(cfg: Config, began: nat, ticks: seq<Tick>, g: R.Gi, d: nat) returns (n: nat)
    requires ClockForward(ticks) && Paced(began, ticks, d)
    requires Asks(ticks, g) != []
    requires Last(ticks).check >= Last(Asks(ticks, g)) + cfg.IdleSeconds(g) + Max(cfg.reportEvery, 1)
    ensures var due := Last(Asks(ticks, g)) + cfg.IdleSeconds(g);
            && 0 < n <= |ticks| && IsReport(cfg, began, ticks[..n])
            && due < ticks[n - 1].check <= due + Max(cfg.reportEvery, 1) + d
            && WorstOf(Verdicts(cfg, ticks[..n])) == Quiet
            && (cfg.hasDestination ==>
                  var said := Remembered(Observations(cfg, began, ticks[..n]), cfg.resendAfter);
                  said.Some? && said.value.state == Quiet)
  {
    var times := Asks(ticks, g);
    var due := Last(times) + cfg.IdleSeconds(g);
    AskedAfterStart(ticks, g, began);
    n := ReportFollows(cfg, began, ticks, d, due);
    AsksPrefix(ticks, n, g);
    var known := Asks(ticks[..n], g);
    assert times[|times| - 1] < ticks[n - 1].check;
    assert known == times;
    assert Last(ticks[..n]) == ticks[n - 1];
    assert SilentBeyond(ticks[..n], g, cfg.IdleSeconds(g));
    PlantQuietExactly(cfg, ticks[..n]);
    if cfg.hasDestination {
      GateAfterReport(cfg, began, ticks[..n]);
    }
  }

  /** Under a threshold measured from one run, the silence of another is reported no later than three measured gaps allow. */
  lemma MeasuredSilenceIsReported(cfg: Config, began: nat, measured: seq<Tick>, ticks: seq<Tick>, g: R.Gi, gap: nat, d: nat)
    returns (n: nat)
    requires Adopts(cfg, measured) && |Asks(measured, g)| >= 2 && IsLongestGap(Asks(measured, g), gap)
    requires ClockForward(ticks) && Paced(began, ticks, d) && Asks(ticks, g) != []
    requires Last(ticks).check >= Last(Asks(ticks, g)) + Threefold(gap) + Max(cfg.reportEvery, 1)
    ensures 0 < n <= |ticks| && IsReport(cfg, began, ticks[..n]) && WorstOf(Verdicts(cfg, ticks[..n])) == Quiet
    ensures ticks[n - 1].check <= Last(Asks(ticks, g)) + Threefold(gap) + Max(cfg.reportEvery, 1) + d
  {
    AdoptedIsThreefold(cfg, measured, g, gap);
    n := SilenceIsReported(cfg, began, ticks, g, d);
  }

  lemma {:induction false} AskedAfterStart(ticks: seq<Tick>, g: R.Gi, began: nat)
    requires forall i :: 0 <= i < |ticks| ==> began <= ticks[i].at
    ensures forall i :: 0 <= i < |Asks(ticks, g)| ==> began <= Asks(ticks, g)[i]
  {
    if ticks != [] {
      AskedAfterStart(Front(ticks), g, began);
      AsksStep(ticks, g);
    }
  }

  // Nobody is told more often than there is news.

  /** How many of the lines said told somebody. */
  function CountTold(lines: seq<Line>): nat {
    if lines == [] then 0 else CountTold(Front(lines)) + if Last(lines).Report? && Last(lines).told then 1 else 0
  }

  lemma {:induction false} ToldIsSent(cfg: Config, began: nat, ticks: seq<Tick>)
    ensures CountTold(Lines(cfg, began, false, ticks)) == CountTrue(Sent(Observations(cfg, began, ticks), cfg.resendAfter))
  {
    if ticks != [] {
      ToldIsSent(cfg, began, Front(ticks));
      if IsReport(cfg, began, ticks) {
        SaidOnce(cfg, began, ticks);
        SentOnce(cfg, began, ticks);
      } else {
        SilentTurn(cfg, began, false, ticks);
      }
    }
  }

  lemma ToldOneMore(lines: seq<Line>, line: Line)
    ensures CountTold(lines + [line]) == CountTold(lines) + if line.Report? && line.told then 1 else 0
  {
    assert Front(lines + [line]) == lines;
  }

  lemma SaidOnce(cfg: Config, began: nat, ticks: seq<Tick>)
    requires IsReport(cfg, began, ticks)
    ensures CountTold(Lines(cfg, began, false, ticks))
         == CountTold(Lines(cfg, began, false, Front(ticks))) + if Told(cfg, began, ticks) then 1 else 0
  {
    ReportingTurn(cfg, began, false, ticks);
    ToldOneMore(Lines(cfg, began, false, Front(ticks)), LineOf(cfg, began, false, ticks));
  }

  lemma SentOnce(cfg: Config, began: nat, ticks: seq<Tick>)
    requires IsReport(cfg, began, ticks)
    ensures CountTrue(Sent(Observations(cfg, began, ticks), cfg.resendAfter))
         == CountTrue(Sent(Observations(cfg, began, Front(ticks)), cfg.resendAfter)) + if Told(cfg, began, ticks) then 1 else 0
  {
    var seen := Observations(cfg, began, Front(ticks));
    if cfg.hasDestination {
      var s := Sighting(WorstOf(Verdicts(cfg, ticks)), Last(ticks).check);
      assert Observations(cfg, began, ticks) == seen + [s];
      SentOneMore(seen, s, cfg.resendAfter);
    } else {
      assert Observations(cfg, began, ticks) == seen;
    }
  }

  lemma SentOneMore(seen: seq<Sighting>, s: Sighting, after: nat)
    ensures Sent(seen + [s], after) != []
    ensures CountTrue(Sent(seen + [s], after))
         == CountTrue(Sent(seen, after)) + if Last(Sent(seen + [s], after)) then 1 else 0
  {
    assert Front(seen + [s]) == seen;
    var b := Sent(seen, after);
    assert Front(b + [Last(Sent(seen + [s], after))]) == b;
  }

  lemma {:induction false} ObservationsForward(cfg: Config, began: nat, ticks: seq<Tick>, high: nat)
    requires ClockForward(ticks) && forall i :: 0 <= i < |ticks| ==> ticks[i].check <= high
    ensures var seen := Observations(cfg, began, ticks);
            && Judgement.Forward(seen)
            && forall i :: 0 <= i < |seen| ==> ticks != [] && ticks[0].check <= seen[i].now <= high
  {
    if ticks != [] {
      ForwardFront(ticks);
      ChecksInOrder(ticks, 0, |ticks| - 1);
      ObservationsForward(cfg, began, Front(ticks), Last(ticks).check);
    }
  }

  /** The gate's bound, stretched over a span that contains its consultations. */
  lemma SendsWithin(seen: seq<Sighting>, after: nat, first: nat, last: nat)
    requires Judgement.Forward(seen) && after > 0
    requires forall i :: 0 <= i < |seen| ==> first <= seen[i].now <= last
    ensures Changes(seen) <= CountTrue(Sent(seen, after)) <= Changes(seen) + Minus(last, first) / after
  {
    if seen != [] {
      SendsAreBounded(seen, after);
      QuotientGrows(Last(seen).now - seen[0].now, Minus(last, first), after);
    }
  }

  lemma QuotientGrows(a: nat, b: nat, d: nat)
    requires a <= b && d > 0
    ensures a / d <= b / d
  {
    DivideBound(a / d, d, b);
  }

  /** Over a whole run, somebody is told of every change, and otherwise at most once per `resend_after`. */
  lemma TellingIsBounded(cfg: Config, began: nat, ticks: seq<Tick>)
    requires ClockForward(ticks) && ticks != [] && cfg.resendAfter > 0
    ensures var changes, told := Changes(Observations(cfg, began, ticks)), CountTold(Lines(cfg, began, false, ticks));
            changes <= told <= changes + Minus(Last(ticks).check, ticks[0].check) / cfg.resendAfter
  {
    forall i | 0 <= i < |ticks|
      ensures ticks[i].check <= Last(ticks).check
    {
      ChecksInOrder(ticks, i, |ticks| - 1);
    }
    ObservationsForward(cfg, began, ticks, Last(ticks).check);
    SendsWithin(Observations(cfg, began, ticks), cfg.resendAfter, ticks[0].check, Last(ticks).check);
    ToldIsSent(cfg, began, ticks);
  }

  // While trouble lasts, somebody goes on being told.

  lemma ReportSaysItsState(cfg: Config, began: nat, ticks: seq<Tick>)
    requires IsReport(cfg, began, ticks) && cfg.hasDestination
    ensures var seen := Observations(cfg, began, ticks);
            && seen == Observations(cfg, began, Front(ticks)) + [Sighting(WorstOf(Verdicts(cfg, ticks)), Last(ticks).check)]
            && Told(cfg, began, ticks) == Last(Sent(seen, cfg.resendAfter))
  {
  }

  /** A turn consults the gate when it reports and there is somebody to tell, and otherwise not. */
  lemma ConsultedOnce(cfg: Config, began: nat, ticks: seq<Tick>)
    requires ticks != []
    ensures var seen, before := Observations(cfg, began, ticks), Observations(cfg, began, Front(ticks));
            && before <= seen && |seen| <= |before| + 1
            && (|seen| > |before| ==> IsReport(cfg, began, ticks) && cfg.hasDestination)
  {
  }

  lemma EarlierSent(seen: seq<Sighting>, before: seq<Sighting>, after: nat, j: nat)
    requires before <= seen && j < |before|
    ensures Sent(seen, after)[j] == Sent(before, after)[j] && seen[j] == before[j]
  {
    SentPrefix(seen, after, |before|);
    assert seen[..|before|] == before;
  }

  /** Every consultation of the gate was a report, which told somebody exactly when the gate let it. */
  lemma {:induction false} ConsultedAtReport(cfg: Config, began: nat, ticks: seq<Tick>, j: nat) returns (m: nat)
    requires j < |Observations(cfg, began, ticks)|
    ensures 0 < m <= |ticks| && IsReport(cfg, began, ticks[..m])
    ensures ticks[m - 1].check == Observations(cfg, began, ticks)[j].now
    ensures Told(cfg, began, ticks[..m]) == Sent(Observations(cfg, began, ticks), cfg.resendAfter)[j]
  {
    ConsultedOnce(cfg, began, ticks);
    if j < |Observations(cfg, began, Front(ticks))| {
      m := ConsultedAtReport(cfg, began, Front(ticks), j);
      SamePrefix(ticks, m);
      EarlierSent(Observations(cfg, began, ticks), Observations(cfg, began, Front(ticks)), cfg.resendAfter, j);
    } else {
      m := |ticks|;
      assert ticks[..m] == ticks;
      ReportSaysItsState(cfg, began, ticks);
    }
  }

  /** The first `n` turns end in a report that finds trouble. */
  ghost predicate FindsTrouble(cfg: Config, ticks: seq<Tick>, n: nat)
    requires 0 < n <= |ticks|
  {
    WorstOf(Verdicts(cfg, ticks[..n])) != Working
  }

  /**
   While every report past `from` finds trouble, somebody is told again after `from` within
   `resendAfter` seconds, one report interval and one turn.
   */
  lemma TroubleIsToldAgain(cfg: Config, began: nat, ticks: seq<Tick>, d: nat, from: nat) returns (m: nat)
    requires ClockForward(ticks) && Paced(began, ticks, d) && began <= from && cfg.hasDestination
    requires ticks != [] && Last(ticks).check >= from + cfg.resendAfter + Max(cfg.reportEvery, 1)
    requires forall n :: 0 < n <= |ticks| && IsReport(cfg, began, ticks[..n]) && from < ticks[n - 1].check ==>
      FindsTrouble(cfg, ticks, n)
    ensures 0 < m <= |ticks| && IsReport(cfg, began, ticks[..m]) && Told(cfg, began, ticks[..m])
    ensures from < ticks[m - 1].check <= from + cfg.resendAfter + Max(cfg.reportEvery, 1) + d
  {
    var n := ReportFollows(cfg, began, ticks, d, from + cfg.resendAfter);
    m := ToldBy(cfg, began, ticks, n, from);
  }

  /** By a report that finds trouble `resendAfter` seconds past `from`, somebody was told after `from`. */
  lemma ToldBy(cfg: Config, began: nat, ticks: seq<Tick>, n: nat, from: nat) returns (m: nat)
    requires ClockForward(ticks) && 0 < n <= |ticks| && IsReport(cfg, began, ticks[..n]) && cfg.hasDestination
    requires FindsTrouble(cfg, ticks, n) && ticks[n - 1].check > from + cfg.resendAfter
    ensures 0 < m <= n && IsReport(cfg, began, ticks[..m]) && Told(cfg, began, ticks[..m])
    ensures from < ticks[m - 1].check <= ticks[n - 1].check
  {
    var p := ticks[..n];
    assert Last(p) == ticks[n - 1];
    m := ToldSince(cfg, began, p, from);
    EarlierTurn(ticks, n, m);
  }

  lemma EarlierTurn(ticks: seq<Tick>, n: nat, m: nat)
    requires ClockForward(ticks) && 0 < m <= n <= |ticks|
    ensures ticks[..n][..m] == ticks[..m] && ticks[..n][m - 1] == ticks[m - 1]
    ensures ticks[m - 1].check <= ticks[n - 1].check
  {
    ChecksInOrder(ticks, m - 1, n - 1);
  }

  /** A report that finds trouble `resendAfter` seconds past `from`: by then somebody was told after `from`. */
  lemma ToldSince(cfg: Config, began: nat, ticks: seq<Tick>, from: nat) returns (m: nat)
    requires IsReport(cfg, began, ticks) && cfg.hasDestination
    requires WorstOf(Verdicts(cfg, ticks)) != Working && Last(ticks).check > from + cfg.resendAfter
    ensures 0 < m <= |ticks| && IsReport(cfg, began, ticks[..m]) && Told(cfg, began, ticks[..m])
    ensures from < ticks[m - 1].check
  {
    var seen, after := Observations(cfg, began, ticks), cfg.resendAfter;
    ReportSaysItsState(cfg, began, ticks);
    var j := SentSince(seen, after, from);
    m := ConsultedAtReport(cfg, began, ticks, j);
  }

  lemma SentSince(seen: seq<Sighting>, after: nat, from: nat) returns (j: nat)
    requires seen != [] && Last(seen).state != Working && Last(seen).now > from + after
    ensures j < |seen| && Sent(seen, after)[j] && seen[j].now > from
  {
    var i := |seen| - 1;
    if forall k :: 0 <= k < i && Sent(seen, after)[k] ==> seen[k].now + after <= seen[i].now {
      TroubleComesAgain(seen, after, i);
      j := i;
    } else {
      j :| 0 <= j < i && Sent(seen, after)[j] && seen[j].now + after > seen[i].now;
    }
  }
}
