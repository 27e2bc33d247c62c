/**
 What the relay table means, said about the plain list of events it was told and
 without mentioning the table: which requests are awaiting an answer, which row an
 event belongs to, and what each row should therefore say.
 */
module RelayHistory {
  import opened Common
  import opened RelayTable

  predicate Numbered(e: Event) {
    e.Request? && e.xid.Some?
  }

  /** When the events of `p` last caused a sweep; 0 when they never did. */
  ghost function LastSweep(p: seq<Event>): nat
    decreases |p|, 0
  {
    if p == [] then 0
    else if Sweeps(Front(p), Last(p)) then Last(p).ms
    else LastSweep(Front(p))
  }

  /** `e`, arriving after `p`, causes a sweep. */
  ghost predicate Sweeps(p: seq<Event>, e: Event)
    decreases |p|, 1
  {
    Numbered(e) && Minus(e.ms, LastSweep(p)) >= 1_000
  }

  /** The sweep `e` causes throws the request `r` away. */
  ghost predicate Forgets(p: seq<Event>, e: Event, r: Event)
    requires Numbered(r)
    decreases |p|, 2
  {
    Sweeps(p, e) && r.ms <= Minus(e.ms, 30_000)
  }

  /** The numbered request `e` finds room: fewer than the cap are awaiting an answer. */
  ghost predicate Admits(p: seq<Event>, e: Event)
    ensures Admits(p, e) ==> Numbered(e)
    decreases |p|, 3
  {
    && Numbered(e)
    && |set i | 0 <= i < |p| && Awaits(p, i) && !Forgets(p, e, p[i]) :: p[i].xid.value| < 50_000
  }

  /** `e` ends the wait of the request `r`: it answers it, retries it, or sweeps it away. */
  ghost predicate Displaces(p: seq<Event>, e: Event, r: Event)
    requires Numbered(r)
    decreases |p|, 4
  {
    || (e.Reply? && e.xid == r.xid)
    || (Admits(p, e) && e.xid == r.xid)
    || Forgets(p, e, r)
  }

  /** Event `i` is a request that was admitted and that nothing since has displaced. */
  ghost predicate Awaits(h: seq<Event>, i: nat)
    requires i < |h|
    ensures Awaits(h, i) ==> Numbered(h[i])
    decreases |h|, 0
  {
    && Admits(h[..i], h[i])
    && forall j | i < j < |h| :: !Displaces(h[..j], h[j], h[i])
  }

  /** The event whose wait a reply with this id would end. */
  ghost function AskedBy(h: seq<Event>, xid: Option<nat>): (r: Option<nat>)
    ensures r.Some? ==> r.value < |h| && Awaits(h, r.value) && h[r.value].xid == xid
    ensures r.None? && xid.Some? ==> forall i :: 0 <= i < |h| && Awaits(h, i) ==> h[i].xid != xid
  {
    if xid.Some? && exists i :: 0 <= i < |h| && Awaits(h, i) && h[i].xid == xid then
      var i :| 0 <= i < |h| && Awaits(h, i) && h[i].xid == xid;
      Some(i)
    else
      None
  }

  lemma AwaitsAppend(p: seq<Event>, e: Event)
    ensures forall i :: 0 <= i < |p| ==> (Awaits(p + [e], i) <==> Awaits(p, i) && !Displaces(p, e, p[i]))
    ensures Awaits(p + [e], |p|) <==> Admits(p, e)
  {
    var h := p + [e];
    assert h[..|p|] == p;
    forall i | 0 <= i < |p|
      ensures Awaits(h, i) <==> Awaits(p, i) && !Displaces(p, e, p[i])
    {
      assert forall j :: 0 <= j < |p| ==> h[..j] == p[..j] && h[j] == p[j];
      if Awaits(h, i) {
        assert !Displaces(h[..|p|], h[|p|], h[i]);
      }
    }
  }

  /** The table's pending map and sweep time are the ones the history describes. */
  ghost predicate TellsWaiting(t: Table, h: seq<Event>) {
    && t.sweptMs == LastSweep(h)
    && (forall i :: 0 <= i < |h| && Awaits(h, i) ==>
          h[i].xid.value in t.pending && t.pending[h[i].xid.value] == Pending(h[i].ms, h[i].gi))
    && (forall x :: x in t.pending ==> exists i :: 0 <= i < |h| && Awaits(h, i) && h[i].xid == Some(x))
  }

  /** The sweep and the cap see the same table the history describes. */
  lemma SweepAgrees(p: seq<Event>, e: Event, t: Table)
    requires TellsWaiting(t, p) && Numbered(e)
    ensures t.SweepDue(e.ms) == Sweeps(p, e)
    ensures t.Expired(e.ms).pending.Keys
         == set i | 0 <= i < |p| && Awaits(p, i) && !Forgets(p, e, p[i]) :: p[i].xid.value
    ensures Admits(p, e) <==> |t.Expired(e.ms).pending| < 50_000
  {
    var swept := t.Expired(e.ms).pending;
    var awaiting := set i | 0 <= i < |p| && Awaits(p, i) && !Forgets(p, e, p[i]) :: p[i].xid.value;
    forall x | x in swept
      ensures x in awaiting
    {
      var i :| 0 <= i < |p| && Awaits(p, i) && p[i].xid == Some(x);
    }
    forall x | x in awaiting
      ensures x in swept
    {
      var i :| 0 <= i < |p| && Awaits(p, i) && !Forgets(p, e, p[i]) && p[i].xid.value == x;
    }
    assert swept.Keys == awaiting;
    assert |swept| == |swept.Keys|;
  }

  /**
   Under every interleaving, `pending[x]` is exactly the latest admitted request with
   id `x` that no later reply took, no admitted retry replaced and no sweep removed.
   */
  lemma {:induction false} PendingRefinesHistory(h: seq<Event>)
    ensures TellsWaiting(Run(h), h)
    ensures forall i, j :: 0 <= i < j < |h| && Awaits(h, i) && Awaits(h, j) ==> h[i].xid != h[j].xid
  {
    if h != [] {
      var p, e := Front(h), Last(h);
      assert h == p + [e];
      PendingRefinesHistory(p);
      RunAppend(p, e);
      if Numbered(e) {
        PendingAfterRequest(p, e, Run(p));
      } else {
        PendingAfterOther(p, e, Run(p));
      }
      forall i, j | 0 <= i < j < |h| && Awaits(h, i) && Awaits(h, j)
        ensures h[i].xid != h[j].xid
      {
        assert !Displaces(h[..j], h[j], h[i]);
      }
    }
  }

  /**
   A retry takes its first attempt's place exactly when it is admitted, which is when the sweep
   it causes leaves room in the table; refused, it leaves the first attempt waiting.
   */
  lemma RetryReplacesExactly(p: seq<Event>, e: Event, i: nat)
    requires Numbered(e) && i < |p| && Awaits(p, i) && p[i].xid == e.xid && !Forgets(p, e, p[i])
    ensures Awaits(p + [e], |p|) <==> |Run(p).Expired(e.ms).pending| < 50_000
    ensures Awaits(p + [e], i) <==> |Run(p).Expired(e.ms).pending| >= 50_000
  {
    PendingRefinesHistory(p);
    SweepAgrees(p, e, Run(p));
    AwaitsAppend(p, e);
  }

  /** Rows play no part in what happens to the pending map. */
  lemma StepPending(t: Table, e: Event)
    ensures Numbered(e) ==>
      var x := t.Expired(e.ms);
      && Step(t, e).sweptMs == x.sweptMs
      && Step(t, e).pending ==
           if |x.pending| < 50_000 then x.pending[e.xid.value := Pending(e.ms, e.gi)] else x.pending
    ensures !Numbered(e) ==>
      && Step(t, e).sweptMs == t.sweptMs
      && Step(t, e).pending == if e.Reply? && e.xid.Some? then t.pending - {e.xid.value} else t.pending
  {
    if Numbered(e) {
      var t1 := t.WithRow(e.gi, Asking(t.Entry(e.gi, e.now), e.now));
      assert t1.pending == t.pending && t1.sweptMs == t.sweptMs;
      assert t1.Expired(e.ms).pending == t.Expired(e.ms).pending;
    }
  }

  lemma PendingAfterRequest(p: seq<Event>, e: Event, t: Table)
    requires TellsWaiting(t, p) && Numbered(e)
    ensures TellsWaiting(Step(t, e), p + [e])
  {
    var h := p + [e];
    StepPending(t, e);
    SweepAgrees(p, e, t);
    assert Front(h) == p && Last(h) == e;
    var after := Step(t, e).pending;
    forall i | 0 <= i < |h| && Awaits(h, i)
      ensures h[i].xid.value in after && after[h[i].xid.value] == Pending(h[i].ms, h[i].gi)
    {
      AwaitedIsKept(p, e, t, i);
    }
    forall x | x in after
      ensures exists i :: 0 <= i < |h| && Awaits(h, i) && h[i].xid == Some(x)
    {
      var i := KeptIsAwaited(p, e, t, x);
    }
  }

  lemma AwaitedIsKept(p: seq<Event>, e: Event, t: Table, i: nat)
    requires TellsWaiting(t, p) && Numbered(e)
    requires i < |p + [e]| && Awaits(p + [e], i)
    ensures (p + [e])[i].xid.value in Step(t, e).pending
    ensures Step(t, e).pending[(p + [e])[i].xid.value] == Pending((p + [e])[i].ms, (p + [e])[i].gi)
  {
    StepPending(t, e);
    SweepAgrees(p, e, t);
    AwaitsAppend(p, e);
    if i < |p| {
      SurvivorsStay(p, e, t);
      assert Awaits(p, i) && !Displaces(p, e, p[i]);
    }
  }

  lemma KeptIsAwaited(p: seq<Event>, e: Event, t: Table, x: nat) returns (i: nat)
    requires TellsWaiting(t, p) && Numbered(e)
    requires x in Step(t, e).pending
    ensures i < |p + [e]| && Awaits(p + [e], i) && (p + [e])[i].xid == Some(x)
  {
    StepPending(t, e);
    SweepAgrees(p, e, t);
    AwaitsAppend(p, e);
    if Admits(p, e) && Some(x) == e.xid {
      i := |p|;
    } else {
      SurvivorsStay(p, e, t);
      i :| 0 <= i < |p| && Awaits(p, i) && p[i].xid == Some(x) && !Displaces(p, e, p[i]);
    }
  }

  /** What a numbered request leaves of the entries that were there before it. */
  lemma SurvivorsStay(p: seq<Event>, e: Event, t: Table)
    requires TellsWaiting(t, p) && Numbered(e)
    ensures forall i :: 0 <= i < |p| && Awaits(p, i) && !Displaces(p, e, p[i]) ==>
      && p[i].xid.value in t.Expired(e.ms).pending
      && t.Expired(e.ms).pending[p[i].xid.value] == Pending(p[i].ms, p[i].gi)
      && (Admits(p, e) ==> p[i].xid != e.xid)
    ensures forall x :: x in t.Expired(e.ms).pending && !(Admits(p, e) && Some(x) == e.xid) ==>
      exists i :: 0 <= i < |p| && Awaits(p, i) && p[i].xid == Some(x) && !Displaces(p, e, p[i])
  {
    SweepAgrees(p, e, t);
    forall x | x in t.Expired(e.ms).pending && !(Admits(p, e) && Some(x) == e.xid)
      ensures exists i :: 0 <= i < |p| && Awaits(p, i) && p[i].xid == Some(x) && !Displaces(p, e, p[i])
    {
      var i :| 0 <= i < |p| && Awaits(p, i) && !Forgets(p, e, p[i]) && p[i].xid.value == x;
      assert !Displaces(p, e, p[i]);
    }
  }

  lemma PendingAfterOther(p: seq<Event>, e: Event, t: Table)
    requires TellsWaiting(t, p) && !Numbered(e)
    ensures TellsWaiting(Step(t, e), p + [e])
  {
    var h := p + [e];
    StepPending(t, e);
    AwaitsAppend(p, e);
    assert Front(h) == p && Last(h) == e;
    forall x | x in Step(t, e).pending
      ensures exists i :: 0 <= i < |h| && Awaits(h, i) && h[i].xid == Some(x)
    {
      var i :| 0 <= i < |p| && Awaits(p, i) && p[i].xid == Some(x);
      assert Awaits(h, i) && h[i] == p[i];
    }
  }
}
