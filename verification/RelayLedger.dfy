/** Conservation over whole runs: where every request and every answer ends up. */
module RelayLedger {
  import opened Common
  import opened RelayTable
  import opened RelayHistory
  import opened RelayRows

  datatype Column = Requests | Replies | FileReads | FileSends | Answers

  function Get(r: Relay, c: Column): nat {
    match c
    case Requests => r.requests
    case Replies => r.replies
    case FileReads => r.tftpRequests
    case FileSends => r.tftpSends
    case Answers => r.answered
  }

  ghost function SumMap(m: map<Gi, Relay>, c: Column): nat {
    if m == map[] then 0
    else
      var g :| g in m;
      Get(m[g], c) + SumMap(m - {g}, c)
  }

  /** A column added up over every relay and the unrelayed row. */
  ghost function SumRows(t: Table, c: Column): nat {
    Get(t.unrelayed, c) + SumMap(t.byGi, c)
  }

  lemma {:induction false} SumWithout(m: map<Gi, Relay>, c: Column, g: Gi)
    requires g in m
    ensures SumMap(m, c) == Get(m[g], c) + SumMap(m - {g}, c)
    decreases |m|
  {
    var x :| x in m && SumMap(m, c) == Get(m[x], c) + SumMap(m - {x}, c);
    if x != g {
      var rest := m - {x};
      assert |rest.Keys| < |m.Keys| by { assert rest.Keys == m.Keys - {x}; }
      SumWithout(rest, c, g);
      assert m - {g} - {x} == rest - {g};
      SumWithout(m - {g}, c, x);
    }
  }

  lemma SumPut(m: map<Gi, Relay>, c: Column, g: Gi, r: Relay)
    ensures SumMap(m[g := r], c) == SumMap(m, c) - (if g in m then Get(m[g], c) else 0) + Get(r, c)
  {
    SumWithout(m[g := r], c, g);
    assert m[g := r] - {g} == m - {g};
    if g in m {
      SumWithout(m, c, g);
    } else {
      assert m - {g} == m;
    }
  }

  lemma SumWithRow(t: Table, k: Option<Gi>, r: Relay, c: Column)
    ensures SumRows(t.WithRow(k, r), c) == SumRows(t, c) - Get(t.Row(k), c) + Get(r, c)
  {
    if k.Some? {
      SumPut(t.byGi, c, k.value, r);
    }
  }

  /** How many events of a run add to a column, whichever row they land in. */
  ghost function Counted(h: seq<Event>, c: Column): nat {
    if h == [] then 0
    else Counted(Front(h), c) + if Adds(Front(h), Last(h), c) then 1 else 0
  }

  ghost predicate AddsTo(e: Event, took: Option<nat>, c: Column) {
    match c
    case Requests => e.Request?
    case Replies => e.Reply?
    case FileReads => e.TftpRequest?
    case FileSends => e.TftpSend?
    case Answers => e.Reply? && took.Some?
  }

  ghost predicate Adds(p: seq<Event>, e: Event, c: Column) {
    AddsTo(e, ReadingOf(p, e, Latency), c)
  }

  lemma StepSum(t: Table, e: Event, c: Column)
    ensures SumRows(Step(t, e), c) == SumRows(t, c) + if AddsTo(e, TookIn(t, e), c) then 1 else 0
  {
    var k := OwnerIn(t, e);
    var r := RowAfter(e, TookIn(t, e), t.Entry(k, e.now));
    StepTableRow(t, e);
    assert SumRows(Step(t, e), c) == SumRows(t.WithRow(k, r), c);
    SumWithRow(t, k, r, c);
  }

  /** No packet is lost or counted twice: each column adds up to the events that feed it. */
  lemma {:induction false} RowsAddUp(h: seq<Event>, c: Column)
    ensures SumRows(Run(h), c) == Counted(h, c)
  {
    if h != [] {
      var p, e := Front(h), Last(h);
      assert h == p + [e];
      RowsAddUp(p, c);
      StepSum(Run(p), e, c);
      if e.Reply? {
        AskedAgrees(p, e);
      }
    }
  }

  // What becomes of a request, told from the history alone.

  ghost function Unnumbered(h: seq<Event>): nat {
    if h == [] then 0
    else Unnumbered(Front(h)) + if Last(h).Request? && Last(h).xid.None? then 1 else 0
  }

  ghost function Refused(h: seq<Event>): nat {
    if h == [] then 0
    else Refused(Front(h)) + if Numbered(Last(h)) && !Admits(Front(h), Last(h)) then 1 else 0
  }

  ghost predicate Retries(p: seq<Event>, e: Event) {
    Admits(p, e) && exists i :: 0 <= i < |p| && Awaits(p, i) && !Forgets(p, e, p[i]) && p[i].xid == e.xid
  }

  ghost function Overwritten(h: seq<Event>): nat {
    if h == [] then 0
    else Overwritten(Front(h)) + if Retries(Front(h), Last(h)) then 1 else 0
  }

  ghost function ForgottenIds(p: seq<Event>, e: Event): set<nat> {
    set i | 0 <= i < |p| && Awaits(p, i) && Forgets(p, e, p[i]) :: p[i].xid.value
  }

  ghost function SweptAway(h: seq<Event>): nat {
    if h == [] then 0
    else SweptAway(Front(h)) + if Numbered(Last(h)) then |ForgottenIds(Front(h), Last(h))| else 0
  }

  lemma PendingKeysAfterRequest(p: seq<Event>, e: Event)
    requires Numbered(e)
    ensures Run(p + [e]).pending == if Admits(p, e)
      then Run(p).Expired(e.ms).pending[e.xid.value := Pending(e.ms, e.gi)]
      else Run(p).Expired(e.ms).pending
    ensures Admits(p, e) <==> |Run(p).Expired(e.ms).pending| < 50_000
  {
    RunAppend(p, e);
    PendingRefinesHistory(p);
    SweepAgrees(p, e, Run(p));
    StepPending(Run(p), e);
  }

  /** How one numbered request changes the number of requests waiting. */
  lemma WaitingAfterRequest(p: seq<Event>, e: Event)
    requires Numbered(e)
    ensures |Run(p + [e]).pending| + |ForgottenIds(p, e)| + (if Retries(p, e) then 1 else 0)
         == |Run(p).pending| + (if Admits(p, e) then 1 else 0)
    ensures |Run(p + [e]).pending| <= Common.Max(50_000, |Run(p).pending|)
  {
    SweptIsTheRest(p, e);
    RetryIsKnown(p, e);
    PendingKeysAfterRequest(p, e);
    SizeAfterRequest(Run(p).pending, Run(p).Expired(e.ms).pending, e.xid.value, Pending(e.ms, e.gi), ForgottenIds(p, e));
  }

  lemma SizeAfterRequest(before: map<nat, Pending>, swept: map<nat, Pending>, x: nat, v: Pending, gone: set<nat>)
    requires swept.Keys <= before.Keys && gone == before.Keys - swept.Keys
    ensures |swept| + |gone| == |before|
    ensures |swept[x := v]| == |swept| + if x in swept then 0 else 1
  {
    assert before.Keys == swept.Keys + gone;
    assert |before.Keys| == |before| && |swept.Keys| == |swept|;
    assert swept[x := v].Keys == swept.Keys + {x};
  }

  lemma SweptIsTheRest(p: seq<Event>, e: Event)
    requires Numbered(e)
    ensures ForgottenIds(p, e) == Run(p).pending.Keys - Run(p).Expired(e.ms).pending.Keys
  {
    var t := Run(p);
    PendingRefinesHistory(p);
    SweepAgrees(p, e, t);
    forall x | x in t.pending && x !in t.Expired(e.ms).pending
      ensures x in ForgottenIds(p, e)
    {
      var i :| 0 <= i < |p| && Awaits(p, i) && p[i].xid == Some(x);
      assert Forgets(p, e, p[i]);
    }
  }

  lemma RetryIsKnown(p: seq<Event>, e: Event)
    requires Numbered(e)
    ensures Retries(p, e) <==> Admits(p, e) && e.xid.value in Run(p).Expired(e.ms).pending
  {
    var t := Run(p);
    PendingRefinesHistory(p);
    SweepAgrees(p, e, t);
    if e.xid.value in t.Expired(e.ms).pending {
      var i :| 0 <= i < |p| && Awaits(p, i) && !Forgets(p, e, p[i]) && p[i].xid.value == e.xid.value;
      assert p[i].xid == e.xid;
    }
  }

  /** Requests that left the table without an answer, or never entered it. */
  ghost function Unanswerable(h: seq<Event>): nat {
    Unnumbered(h) + Refused(h) + Overwritten(h) + SweptAway(h)
  }

  /** One event keeps the books balanced. */
  lemma LedgerStep(p: seq<Event>, e: Event)
    ensures (if e.Request? then 1 else 0) + Unanswerable(p) + |Run(p).pending|
         == Unanswerable(p + [e]) + (if Adds(p, e, Answers) then 1 else 0) + |Run(p + [e]).pending|
    ensures |Run(p + [e]).pending| <= Common.Max(50_000, |Run(p).pending|)
  {
    assert Front(p + [e]) == p;
    if Numbered(e) {
      WaitingAfterRequest(p, e);
    } else {
      TakingShrinks(p, e);
    }
  }

  lemma {:induction false} LedgerOfCounts(h: seq<Event>)
    ensures Counted(h, Requests) == Unanswerable(h) + Counted(h, Answers) + |Run(h).pending|
    ensures |Run(h).pending| <= 50_000
  {
    if h != [] {
      var p, e := Front(h), Last(h);
      assert h == p + [e];
      LedgerOfCounts(p);
      LedgerStep(p, e);
    }
  }

  /** Every request is unnumbered, refused, retried, swept, answered or still waiting: once. */
  lemma RequestLedger(h: seq<Event>)
    ensures SumRows(Run(h), Requests)
         == Unnumbered(h) + Refused(h) + Overwritten(h) + SweptAway(h)
          + SumRows(Run(h), Answers) + |Run(h).pending|
    ensures |Run(h).pending| <= 50_000
  {
    RowsAddUp(h, Requests);
    RowsAddUp(h, Answers);
    LedgerOfCounts(h);
  }

  lemma TakingShrinks(p: seq<Event>, e: Event)
    requires !Numbered(e)
    ensures |Run(p + [e]).pending| + (if Adds(p, e, Answers) then 1 else 0) == |Run(p).pending|
  {
    var t := Run(p);
    RunAppend(p, e);
    StepPending(t, e);
    if e.Reply? {
      AskedAgrees(p, e);
      if e.xid.Some? {
        assert (t.pending - {e.xid.value}).Keys == t.pending.Keys - {e.xid.value};
      }
    }
  }

  /** Nothing is answered that was not asked, over the plant as a whole. */
  lemma AnswersNeverExceedRequests(h: seq<Event>)
    ensures SumRows(Run(h), Answers) + |Run(h).pending| <= SumRows(Run(h), Requests)
  {
    RequestLedger(h);
  }
}
