/** src/relays.rs: one row per relay interface, and the requests still waiting for an answer. */
module RelayTable {
  import opened Common

  const PENDING_FOR_MS: nat := 30_000
  const MAX_PENDING: nat := 50_000
  const SWEEP_EVERY_MS: nat := 1_000

  /** One gi-address, as the number its four octets spell. */
  type Gi = nat

  datatype Relay = Relay(
    requests: nat,
    replies: nat,
    tftpRequests: nat,
    tftpSends: nat,
    lastRequest: Option<nat>,
    lastReply: Option<nat>,
    firstSeen: nat,
    longestGap: nat,
    answered: nat,
    answerMsTotal: nat,
    answerMsWorst: nat)
  {
    function AnswerMsMean(): Option<nat> {
      if answered > 0 then Some(answerMsTotal / answered) else None
    }

    function IdleFor(now: nat): Option<nat> {
      match lastRequest
      case None => None
      case Some(t) => Some(Minus(now, t))
    }
  }

  const NEW_RELAY := Relay(0, 0, 0, 0, None, None, 0, 0, 0, 0, 0)

  datatype Pending = Pending(atMs: nat, gi: Option<Gi>)

  /** What the capture loop tells the table. */
  datatype Event =
    | Request(gi: Option<Gi>, xid: Option<nat>, now: nat, ms: nat)
    | Reply(gi: Option<Gi>, xid: Option<nat>, now: nat, ms: nat)
    | TftpRequest(now: nat)
    | TftpSend(now: nat)

  /** The table as a value. */
  datatype Table = Table(
    byGi: map<Gi, Relay>,
    unrelayed: Relay,
    pending: map<nat, Pending>,
    sweptMs: nat)
  {
    function Row(gi: Option<Gi>): Relay {
      match gi
      case None => unrelayed
      case Some(g) => if g in byGi then byGi[g] else NEW_RELAY
    }

    function WithRow(gi: Option<Gi>, r: Relay): Table {
      match gi
      case None => this.(unrelayed := r)
      case Some(g) => this.(byGi := byGi[g := r])
    }

    /** The row an event at `now` lands in, made on first use. */
    function Entry(gi: Option<Gi>, now: nat): Relay {
      match gi
      case None => if unrelayed.firstSeen == 0 then unrelayed.(firstSeen := now) else unrelayed
      case Some(g) => if g in byGi then byGi[g] else NEW_RELAY.(firstSeen := now)
    }

    function SweepDue(ms: nat): bool {
      Minus(ms, sweptMs) >= SWEEP_EVERY_MS
    }

    function Expired(ms: nat): Table {
      if !SweepDue(ms) then this
      else
        this.(sweptMs := ms,
              pending := map x | x in pending && pending[x].atMs > Minus(ms, PENDING_FOR_MS) :: pending[x])
    }
  }

  const EMPTY := Table(map[], NEW_RELAY, map[], 0)

  function Asking(r: Relay, now: nat): Relay {
    r.(requests := r.requests + 1,
       longestGap := if r.lastRequest.Some? then Max(r.longestGap, Minus(now, r.lastRequest.value)) else r.longestGap,
       lastRequest := Some(now))
  }

  function Replying(r: Relay, now: nat): Relay {
    r.(replies := r.replies + 1, lastReply := Some(now))
  }

  function Timed(r: Relay, took: nat): Relay {
    r.(answered := r.answered + 1,
       answerMsTotal := r.answerMsTotal + took,
       answerMsWorst := Max(r.answerMsWorst, took))
  }

  function Remember(t: Table, x: nat, p: Pending): Table {
    if |t.pending| < MAX_PENDING then t.(pending := t.pending[x := p]) else t
  }

  /** The pending entry a reply with this id takes. */
  function Asked(t: Table, xid: Option<nat>): Option<Pending> {
    if xid.Some? && xid.value in t.pending then Some(t.pending[xid.value]) else None
  }

  function OwnerOf(asked: Option<Pending>, gi: Option<Gi>): Option<Gi> {
    if asked.Some? && asked.value.gi.Some? then asked.value.gi else gi
  }

  function Step(t: Table, e: Event): Table {
    match e
    case Request(gi, xid, now, ms) =>
      var t1 := t.WithRow(gi, Asking(t.Entry(gi, now), now));
      if xid.None? then t1 else Remember(t1.Expired(ms), xid.value, Pending(ms, gi))
    case Reply(gi, xid, now, ms) =>
      var asked := Asked(t, xid);
      var owner := OwnerOf(asked, gi);
      var t1 := if asked.Some? then t.(pending := t.pending - {xid.value}) else t;
      var r := Replying(t1.Entry(owner, now), now);
      t1.WithRow(owner, if asked.Some? then Timed(r, Minus(ms, asked.value.atMs)) else r)
    case TftpRequest(now) =>
      var r := t.Entry(None, now);
      t.WithRow(None, r.(tftpRequests := r.tftpRequests + 1))
    case TftpSend(now) =>
      var r := t.Entry(None, now);
      t.WithRow(None, r.(tftpSends := r.tftpSends + 1))
  }

  /** The table after a whole run of events. */
  function Run(h: seq<Event>): Table {
    if h == [] then EMPTY else Step(Run(Front(h)), Last(h))
  }

  lemma RunAppend(h: seq<Event>, e: Event)
    ensures Run(h + [e]) == Step(Run(h), e)
  {
    assert Front(h + [e]) == h;
  }

  lemma PutTwice(t: Table, gi: Option<Gi>, a: Relay, b: Relay)
    ensures t.WithRow(gi, a).WithRow(gi, b) == t.WithRow(gi, b)
  {
    if gi.Some? {
      assert t.byGi[gi.value := a][gi.value := b] == t.byGi[gi.value := b];
    }
  }

  /** Writing the asking row first and remembering the request after is one step of the table. */
  lemma RequestSteps(t: Table, e: Event, r: Relay)
    requires e.Request? && r == Asking(t.Entry(e.gi, e.now), e.now)
    ensures Step(t, e) ==
      if e.xid.None? then t.WithRow(e.gi, r)
      else Remember(t.WithRow(e.gi, r).Expired(e.ms), e.xid.value, Pending(e.ms, e.gi))
  {
  }

  /** Taking the entry first and crediting its relay after is one step of the table. */
  lemma ReplySteps(t: Table, e: Event, taken: Table, owner: Option<Gi>, asked: Option<Pending>, r: Relay)
    requires e.Reply? && asked == Asked(t, e.xid) && owner == OwnerOf(asked, e.gi)
    requires taken == if asked.Some? then t.(pending := t.pending - {e.xid.value}) else t
    requires r == var found := Replying(taken.Entry(owner, e.now), e.now);
                  if asked.Some? then Timed(found, Minus(e.ms, asked.value.atMs)) else found
    ensures Step(t, e) == taken.WithRow(owner, r)
  {
  }

  /** The mutable table of the running monitor, tied to everything it was ever told. */
  class Relays {
    var byGi: map<Gi, Relay>
    var unrelayed: Relay
    var pending: map<nat, Pending>
    var sweptMs: nat
    ghost var history: seq<Event>

    ghost predicate Valid()
      reads this
    {
      Contents() == Run(history)
    }

    ghost function Contents(): Table
      reads this
    {
      Table(byGi, unrelayed, pending, sweptMs)
    }

    constructor ()
      ensures Valid() && history == []
    {
      byGi, unrelayed, pending, sweptMs := map[], NEW_RELAY, map[], 0;
      history := [];
    }

    method Request(gi: Option<Gi>, xid: Option<nat>, now: nat, nowMs: nat)
      requires Valid()
      modifies this
      ensures Valid() && history == old(history) + [Event.Request(gi, xid, now, nowMs)]
    {
      ghost var before := Contents();
      var r := Entry(gi, now);
      r := r.(requests := r.requests + 1);
      if r.lastRequest.Some? {
        r := r.(longestGap := Max(r.longestGap, Minus(now, r.lastRequest.value)));
      }
      r := r.(lastRequest := Some(now));
      assert r == Asking(before.Entry(gi, now), now);
      Put(gi, r);
      PutTwice(before, gi, before.Entry(gi, now), r);
      if xid.Some? {
        ExpirePending(nowMs);
        AddPending(xid.value, Pending(nowMs, gi));
      }
      RequestSteps(before, Event.Request(gi, xid, now, nowMs), r);
      history := history + [Event.Request(gi, xid, now, nowMs)];
      RunAppend(old(history), Last(history));
    }

    method Reply(gi: Option<Gi>, xid: Option<nat>, now: nat, nowMs: nat)
      requires Valid()
      modifies this
      ensures Valid() && history == old(history) + [Event.Reply(gi, xid, now, nowMs)]
    {
      ghost var before := Contents();
      var asked := TakePending(xid);
      var owner := if asked.Some? && asked.value.gi.Some? then asked.value.gi else gi;
      ghost var taken := Contents();
      var r := Entry(owner, now);
      r := r.(replies := r.replies + 1, lastReply := Some(now));
      assert r == Replying(taken.Entry(owner, now), now);
      if asked.Some? {
        var took := Minus(nowMs, asked.value.atMs);
        r := r.(answered := r.answered + 1, answerMsTotal := r.answerMsTotal + took,
                answerMsWorst := Max(r.answerMsWorst, took));
      }
      Put(owner, r);
      PutTwice(taken, owner, taken.Entry(owner, now), r);
      history := history + [Event.Reply(gi, xid, now, nowMs)];
      ReplySteps(before, Last(history), taken, owner, asked, r);
      RunAppend(old(history), Last(history));
    }

    /** A request starts waiting if there is room for it, in place of any earlier one under its number. */
    method AddPending(x: nat, p: Pending)
      modifies this`pending
      ensures Contents() == Remember(old(Contents()), x, p)
    {
      if |pending| < MAX_PENDING {
        pending := pending[x := p];
      }
    }

    /** The request a reply answers, no longer waiting once taken. */
    method TakePending(xid: Option<nat>) returns (asked: Option<Pending>)
      modifies this`pending
      ensures asked == Asked(old(Contents()), xid)
      ensures Contents() == if asked.Some? then old(Contents()).(pending := old(pending) - {xid.value}) else old(Contents())
    {
      asked := None;
      if xid.Some? && xid.value in pending {
        asked := Some(pending[xid.value]);
        pending := pending - {xid.value};
      }
    }

    method TftpRequest(now: nat)
      requires Valid()
      modifies this
      ensures Valid() && history == old(history) + [Event.TftpRequest(now)]
    {
      var r := Entry(None, now);
      Put(None, r.(tftpRequests := r.tftpRequests + 1));
      history := history + [Event.TftpRequest(now)];
      RunAppend(old(history), Last(history));
    }

    method TftpSend(now: nat)
      requires Valid()
      modifies this
      ensures Valid() && history == old(history) + [Event.TftpSend(now)]
    {
      var r := Entry(None, now);
      Put(None, r.(tftpSends := r.tftpSends + 1));
      history := history + [Event.TftpSend(now)];
      RunAppend(old(history), Last(history));
    }

    /** The row for an owner, made with its first sighting when it is new. */
    method Entry(gi: Option<Gi>, now: nat) returns (r: Relay)
      modifies this`byGi, this`unrelayed
      ensures r == old(Contents()).Entry(gi, now)
      ensures Contents() == old(Contents()).WithRow(gi, r)
    {
      if gi.Some? {
        if gi.value !in byGi {
          byGi := byGi[gi.value := NEW_RELAY.(firstSeen := now)];
        }
        r := byGi[gi.value];
        assert byGi == old(byGi)[gi.value := r];
      } else {
        if unrelayed.firstSeen == 0 {
          unrelayed := unrelayed.(firstSeen := now);
        }
        r := unrelayed;
      }
    }

    /** Writes a row back: as the program does through the reference `entry` hands out. */
    method Put(gi: Option<Gi>, r: Relay)
      modifies this`byGi, this`unrelayed
      ensures Contents() == old(Contents()).WithRow(gi, r)
    {
      if gi.Some? {
        byGi := byGi[gi.value := r];
      } else {
        unrelayed := r;
      }
    }

    method ExpirePending(nowMs: nat)
      modifies this`pending, this`sweptMs
      ensures Contents() == old(Contents()).Expired(nowMs)
    {
      if Minus(nowMs, sweptMs) < SWEEP_EVERY_MS {
        return;
      }
      sweptMs := nowMs;
      var cutoff := Minus(nowMs, PENDING_FOR_MS);
      pending := map x | x in pending && pending[x].atMs > cutoff :: pending[x];
    }

    method Waiting() returns (n: nat)
      requires Valid()
      ensures n == |Run(history).pending|
    {
      n := |pending|;
    }

    /** The relays in address order, each once. */
    method Each() returns (rows: seq<(Gi, Relay)>)
      requires Valid()
      ensures rows == EachOf(Run(history))
    {
      rows := EachOf(Table(byGi, unrelayed, pending, sweptMs));
    }
  }

  lemma {:induction false} FindLeast(s: set<nat>) returns (k: nat)
    requires s != {}
    ensures k in s && forall j :: j in s ==> k <= j
    decreases |s|
  {
    k :| k in s;
    var rest := s - {k};
    if rest != {} {
      var m := FindLeast(rest);
      k := Min(k, m);
    }
    assert forall j :: j in s ==> j in rest || j == k || k <= j;
  }

  lemma LeastExists(s: set<nat>)
    requires s != {}
    ensures exists k :: k in s && forall j :: j in s ==> k <= j
  {
    var k := FindLeast(s);
  }

  function Least(s: set<nat>): (k: nat)
    requires s != {}
    ensures k in s && forall j :: j in s ==> k <= j
  {
    LeastExists(s);
    var k :| k in s && forall j :: j in s ==> k <= j;
    k
  }

  /** A set of addresses in order. */
  function Ascending(s: set<nat>): seq<nat> {
    if s == {} then [] else [Least(s)] + Ascending(s - {Least(s)})
  }

  lemma {:induction false} AscendingIsTheSet(s: set<nat>)
    ensures forall i :: 0 <= i < |Ascending(s)| ==> Ascending(s)[i] in s
    ensures forall i, j :: 0 <= i < j < |Ascending(s)| ==> Ascending(s)[i] < Ascending(s)[j]
    ensures forall x :: x in s ==> x in Ascending(s)
  {
    if s != {} {
      var k := Least(s);
      var rest := s - {k};
      AscendingIsTheSet(rest);
      assert Ascending(s) == [k] + Ascending(rest);
      forall x | x in s
        ensures x in Ascending(s)
      {
        assert x == k || x in rest;
      }
    }
  }

  function RowsAt(keys: seq<Gi>, byGi: map<Gi, Relay>): (rows: seq<(Gi, Relay)>)
    requires forall i :: 0 <= i < |keys| ==> keys[i] in byGi
    ensures |rows| == |keys|
    ensures forall i :: 0 <= i < |keys| ==> rows[i] == (keys[i], byGi[keys[i]])
  {
    seq(|keys|, i requires 0 <= i < |keys| => (keys[i], byGi[keys[i]]))
  }

  function EachOf(t: Table): seq<(Gi, Relay)> {
    AscendingIsTheSet(t.byGi.Keys);
    var keys := Ascending(t.byGi.Keys);
    RowsAt(keys, t.byGi)
  }

  /** Every row once, lowest address first. */
  lemma EachListsEveryRow(t: Table)
    ensures forall i, j :: 0 <= i < j < |EachOf(t)| ==> EachOf(t)[i].0 < EachOf(t)[j].0
    ensures forall i :: 0 <= i < |EachOf(t)| ==> EachOf(t)[i].0 in t.byGi && t.byGi[EachOf(t)[i].0] == EachOf(t)[i].1
    ensures forall g :: g in t.byGi ==> exists i :: 0 <= i < |EachOf(t)| && EachOf(t)[i] == (g, t.byGi[g])
  {
    AscendingIsTheSet(t.byGi.Keys);
    var keys := Ascending(t.byGi.Keys);
    forall g | g in t.byGi
      ensures exists i :: 0 <= i < |EachOf(t)| && EachOf(t)[i] == (g, t.byGi[g])
    {
      assert g in keys;
      var i :| 0 <= i < |keys| && keys[i] == g;
      assert EachOf(t)[i] == (g, t.byGi[g]);
    }
  }
}
