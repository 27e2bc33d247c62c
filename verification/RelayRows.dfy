/** What every row of the relay table says about the events it was told. */
module RelayRows {
  import opened Common
  import opened RelayTable
  import opened RelayHistory

  /** The row the event `e` lands in, when it arrives after `p`. */
  ghost function Owner(p: seq<Event>, e: Event): Option<Gi> {
    match e
    case Request(gi, _, _, _) => gi
    case Reply(gi, xid, _, _) =>
      var asked := AskedBy(p, xid);
      if asked.Some? && p[asked.value].gi.Some? then p[asked.value].gi else gi
    case _ => None
  }

  datatype Reading = Sighted | Requested | Replied | FileRead | FileSend | Latency

  /** What `e` adds to one kind of reading: its second, or the milliseconds it took to answer. */
  ghost function ReadingOf(p: seq<Event>, e: Event, what: Reading): Option<nat> {
    match what
    case Sighted => Some(e.now)
    case Requested => if e.Request? then Some(e.now) else None
    case Replied => if e.Reply? then Some(e.now) else None
    case FileRead => if e.TftpRequest? then Some(e.now) else None
    case FileSend => if e.TftpSend? then Some(e.now) else None
    case Latency =>
      if e.Reply? && AskedBy(p, e.xid).Some?
      then Some(Minus(e.ms, p[AskedBy(p, e.xid).value].ms))
      else None
  }

  /** All readings of one kind in one row, oldest first. */
  ghost function Readings(h: seq<Event>, k: Option<Gi>, what: Reading): seq<nat> {
    if h == [] then []
    else
      var p, e := Front(h), Last(h);
      Readings(p, k, what)
      + if Owner(p, e) == k && ReadingOf(p, e, what).Some? then [ReadingOf(p, e, what).value] else []
  }

  /** The seconds between reading `i` and the one before it. */
  function Gap(times: seq<nat>, i: nat): nat
    requires 0 < i < |times|
  {
    Minus(times[i], times[i - 1])
  }

  ghost predicate GapsWithin(times: seq<nat>, g: nat) {
    forall i :: 0 < i < |times| ==> Gap(times, i) <= g
  }

  /** `g` is the largest gap between two neighbours, and 0 when there are none. */
  ghost predicate IsLongestGap(times: seq<nat>, g: nat) {
    GapsWithin(times, g) && (g == 0 || exists i :: 0 < i < |times| && Gap(times, i) == g)
  }

  function FirstPositive(times: seq<nat>): nat {
    if times == [] then 0
    else if FirstPositive(Front(times)) != 0 then FirstPositive(Front(times))
    else Last(times)
  }

  /** All of one row's readings. */
  datatype Tape = Tape(
    sightings: seq<nat>,
    asking: seq<nat>,
    answering: seq<nat>,
    fileReads: seq<nat>,
    fileSends: seq<nat>,
    latencies: seq<nat>)

  ghost function TapeOf(h: seq<Event>, k: Option<Gi>): Tape {
    Tape(Readings(h, k, Sighted), Readings(h, k, Requested), Readings(h, k, Replied),
         Readings(h, k, FileRead), Readings(h, k, FileSend), Readings(h, k, Latency))
  }

  ghost predicate RequestsTell(r: Relay, times: seq<nat>) {
    r.requests == |times| && r.lastRequest == LastOf(times) && IsLongestGap(times, r.longestGap)
  }

  ghost predicate RepliesTell(r: Relay, times: seq<nat>) {
    r.replies == |times| && r.lastReply == LastOf(times)
  }

  ghost predicate AnswersTell(r: Relay, latencies: seq<nat>) {
    && r.answered == |latencies|
    && r.answerMsTotal == Sum(latencies)
    && IsLargest(latencies, r.answerMsWorst)
  }

  /** Every field of a row is the one its readings determine. */
  ghost predicate RowTells(r: Relay, tape: Tape, k: Option<Gi>) {
    && RequestsTell(r, tape.asking)
    && RepliesTell(r, tape.answering)
    && AnswersTell(r, tape.latencies)
    && r.tftpRequests == |tape.fileReads|
    && r.tftpSends == |tape.fileSends|
    && r.firstSeen == FirstSeenOf(tape.sightings, k)
  }

  /** A relay's first sighting; for the row without an address, the first at a positive second. */
  function FirstSeenOf(sightings: seq<nat>, k: Option<Gi>): nat {
    if k.None? then FirstPositive(sightings)
    else if sightings == [] then 0
    else sightings[0]
  }

  /** The step and the history agree on which request a reply answers, and on the row. */
  lemma AskedAgrees(p: seq<Event>, e: Event)
    requires e.Reply?
    ensures AskedBy(p, e.xid).None? <==> Asked(Run(p), e.xid).None?
    ensures AskedBy(p, e.xid).Some? ==>
      Asked(Run(p), e.xid) == Some(Pending(p[AskedBy(p, e.xid).value].ms, p[AskedBy(p, e.xid).value].gi))
    ensures OwnerOf(Asked(Run(p), e.xid), e.gi) == Owner(p, e)
  {
    PendingRefinesHistory(p);
  }

  /** A row after one event that lands in it, as a change to the row before it. */
  ghost function RowAfter(e: Event, took: Option<nat>, before: Relay): Relay {
    match e
    case Request(_, _, now, _) => RelayTable.Asking(before, now)
    case Reply(_, _, now, _) =>
      if took.Some? then Timed(Replying(before, now), took.value) else Replying(before, now)
    case TftpRequest(_) => before.(tftpRequests := before.tftpRequests + 1)
    case TftpSend(_) => before.(tftpSends := before.tftpSends + 1)
  }

  ghost function TapeAfter(e: Event, took: Option<nat>, tape: Tape): Tape {
    var t := tape.(sightings := tape.sightings + [e.now]);
    match e
    case Request(_, _, now, _) => t.(asking := t.asking + [now])
    case Reply(_, _, now, _) =>
      t.(answering := t.answering + [now],
         latencies := if took.Some? then t.latencies + [took.value] else t.latencies)
    case TftpRequest(now) => t.(fileReads := t.fileReads + [now])
    case TftpSend(now) => t.(fileSends := t.fileSends + [now])
  }

  function OwnerIn(t: Table, e: Event): Option<Gi> {
    match e
    case Request(gi, _, _, _) => gi
    case Reply(gi, xid, _, _) => OwnerOf(Asked(t, xid), gi)
    case _ => None
  }

  function TookIn(t: Table, e: Event): Option<nat> {
    if e.Reply? && Asked(t, e.xid).Some? then Some(Minus(e.ms, Asked(t, e.xid).value.atMs)) else None
  }

  /** One event changes one row, and that row only. */
  lemma StepTableRow(t: Table, e: Event)
    ensures var k := OwnerIn(t, e);
            var after := t.WithRow(k, RowAfter(e, TookIn(t, e), t.Entry(k, e.now)));
            Step(t, e).byGi == after.byGi && Step(t, e).unrelayed == after.unrelayed
  {
  }

  lemma StepRow(p: seq<Event>, e: Event, k: Option<Gi>)
    ensures Run(p + [e]).Row(k) ==
      if Owner(p, e) == k then RowAfter(e, ReadingOf(p, e, Latency), Run(p).Entry(k, e.now)) else Run(p).Row(k)
    ensures forall g :: g in Run(p + [e]).byGi <==> g in Run(p).byGi || Owner(p, e) == Some(g)
  {
    RunAppend(p, e);
    if e.Reply? {
      AskedAgrees(p, e);
    }
    StepTableRow(Run(p), e);
  }

  lemma TapeAppend(p: seq<Event>, e: Event, k: Option<Gi>)
    ensures TapeOf(p + [e], k) ==
      if Owner(p, e) == k then TapeAfter(e, ReadingOf(p, e, Latency), TapeOf(p, k)) else TapeOf(p, k)
  {
    assert Front(p + [e]) == p;
  }

  lemma LongestGapAppend(times: seq<nat>, g: nat, t: nat)
    requires IsLongestGap(times, g)
    ensures IsLongestGap(times + [t], if times == [] then g else Max(g, Minus(t, Last(times))))
  {
    var more := times + [t];
    assert forall i :: 0 < i < |times| ==> Gap(more, i) == Gap(times, i);
    if times != [] {
      assert Gap(more, |times|) == Minus(t, Last(times));
    }
  }

  lemma LargestAppend(s: seq<nat>, m: nat, x: nat)
    requires IsLargest(s, m)
    ensures IsLargest(s + [x], Max(m, x)) && Sum(s + [x]) == Sum(s) + x
  {
    assert Front(s + [x]) == s;
    assert (s + [x])[|s|] == x;
  }

  lemma FirstSeenAppend(s: seq<nat>, k: Option<Gi>, t: nat)
    ensures FirstSeenOf(s + [t], k) == if k.None? then (if FirstPositive(s) != 0 then FirstPositive(s) else t)
                                       else if s == [] then t else s[0]
  {
    assert Front(s + [t]) == s;
  }

  /** The row a new event finds, or makes. */
  ghost function Found(before: Relay, isNew: bool, now: nat): Relay {
    if isNew then before.(firstSeen := now) else before
  }

  lemma AskingTells(r: Relay, times: seq<nat>, now: nat)
    requires RequestsTell(r, times)
    ensures RequestsTell(RelayTable.Asking(r, now), times + [now])
  {
    LongestGapAppend(times, r.longestGap, now);
  }

  lemma TimedTells(r: Relay, latencies: seq<nat>, took: nat)
    requires AnswersTell(r, latencies)
    ensures AnswersTell(Timed(r, took), latencies + [took])
  {
    LargestAppend(latencies, r.answerMsWorst, took);
  }

  lemma RowStepTells(before: Relay, tape: Tape, k: Option<Gi>, e: Event, took: Option<nat>)
    requires RowTells(before, tape, k)
    ensures var isNew := if k.None? then before.firstSeen == 0 else tape.sightings == [];
            RowTells(RowAfter(e, took, Found(before, isNew, e.now)), TapeAfter(e, took, tape), k)
  {
    var isNew := if k.None? then before.firstSeen == 0 else tape.sightings == [];
    var found := Found(before, isNew, e.now);
    FirstSeenAppend(tape.sightings, k, e.now);
    match e {
      case Request(_, _, now, _) => AskingTells(found, tape.asking, now);
      case Reply(_, _, now, _) =>
        if took.Some? {
          TimedTells(Replying(found, now), tape.latencies, took.value);
        }
      case TftpRequest(_) =>
      case TftpSend(_) =>
    }
  }

  lemma EmptyRow(tape: Tape, k: Option<Gi>)
    requires tape == Tape([], [], [], [], [], [])
    ensures RowTells(NEW_RELAY, tape, k)
  {
  }

  /** Every row, of every relay and of the unrelayed traffic, says exactly what was seen. */
  lemma {:induction false} RowsRefineHistory(h: seq<Event>, k: Option<Gi>)
    ensures RowTells(Run(h).Row(k), TapeOf(h, k), k)
    ensures k.Some? ==> (k.value in Run(h).byGi <==> Readings(h, k, Sighted) != [])
  {
    if h == [] {
      EmptyRow(TapeOf(h, k), k);
    } else {
      var p, e := Front(h), Last(h);
      assert h == p + [e];
      RowsRefineHistory(p, k);
      StepRow(p, e, k);
      TapeAppend(p, e, k);
      RowStepTells(Run(p).Row(k), TapeOf(p, k), k, e, ReadingOf(p, e, Latency));
    }
  }

  /** TFTP carries no gi-address: none of it is ever filed under a relay. */
  lemma NoFilesUnderRelays(h: seq<Event>, g: Gi)
    ensures Run(h).Row(Some(g)).tftpRequests == 0 && Run(h).Row(Some(g)).tftpSends == 0
  {
    RowsRefineHistory(h, Some(g));
    FilesAreUnrelayed(h, g);
  }

  lemma {:induction false} FilesAreUnrelayed(h: seq<Event>, g: Gi)
    ensures Readings(h, Some(g), FileRead) == [] && Readings(h, Some(g), FileSend) == []
  {
    if h != [] {
      FilesAreUnrelayed(Front(h), g);
    }
  }

  lemma {:induction false} SumWithin(s: seq<nat>, m: nat)
    requires forall i :: 0 <= i < |s| ==> s[i] <= m
    ensures Sum(s) <= m * |s|
  {
    if s != [] {
      SumWithin(Front(s), m);
      assert m * |s| == m * |Front(s)| + m;
    }
  }

  /** The mean answer time exists once anything was answered, is the latencies' average rounded down, and never exceeds the worst. */
  lemma MeanWithinWorst(h: seq<Event>, k: Option<Gi>)
    ensures var r, all := Run(h).Row(k), Readings(h, k, Latency);
            && (r.AnswerMsMean().Some? <==> all != [])
            && (r.AnswerMsMean().Some? ==>
                  && r.AnswerMsMean().value * |all| <= Sum(all) < (r.AnswerMsMean().value + 1) * |all|
                  && r.AnswerMsMean().value <= r.answerMsWorst)
  {
    RowsRefineHistory(h, k);
    var r := Run(h).Row(k);
    SumWithin(Readings(h, k, Latency), r.answerMsWorst);
    if r.answered > 0 {
      QuotientBrackets(r.answerMsTotal, r.answered);
      QuotientWithin(r.answerMsTotal, r.answered, r.answerMsWorst);
    }
  }

  lemma QuotientBrackets(a: nat, d: nat)
    requires d > 0
    ensures (a / d) * d <= a < (a / d + 1) * d
  {
  }

  lemma QuotientWithin(a: nat, d: nat, q: nat)
    requires d > 0 && a <= q * d
    ensures a / d <= q
  {
    var c := a / d;
    assert c * d <= a;
    if q + 1 <= c {
      ScaledOrder(q + 1, c, d);
    }
  }
}
