/** src/alarm.rs: what the counts mean, and whether anybody is told again. */
module Judgement {
  import opened Common

  datatype State = Working | Quiet | Unanswered {
    predicate IsTrouble() {
      !Working?
    }
  }

  datatype RelayVerdict = RelayVerdict(state: State, idleFor: Option<nat>, idleAllowed: nat)

  /** The fraction answered, as an exact ratio. */
  function Answered(requests: nat, replies: nat): real {
    if requests == 0 then 1.0 else replies as real / requests as real
  }

  function JudgeRelay(requests: nat, replies: nat, idleFor: Option<nat>, idleAllowed: nat, minAnswered: real): RelayVerdict {
    var state :=
      if idleFor.Some? && idleFor.value > idleAllowed then Quiet
      else if idleFor.Some? && requests >= 5 && Answered(requests, replies) < minAnswered then Unanswered
      else Working;
    RelayVerdict(state, idleFor, idleAllowed)
  }

  /** Fewer replies than the share asked for. */
  predicate TooFew(requests: nat, replies: nat, share: real) {
    replies as real < share * requests as real
  }

  /** The three verdicts by what a reader can check: silence first, then the share answered. */
  lemma VerdictMeans(requests: nat, replies: nat, idleFor: Option<nat>, idleAllowed: nat, minAnswered: real)
    ensures var v := JudgeRelay(requests, replies, idleFor, idleAllowed, minAnswered);
            var s := v.state;
            && v.idleFor == idleFor && v.idleAllowed == idleAllowed
            && (s == Quiet <==> idleFor.Some? && idleFor.value > idleAllowed)
            && (s == Unanswered <==>
                  idleFor.Some? && idleFor.value <= idleAllowed && requests >= 5
                  && TooFew(requests, replies, minAnswered))
  {
    if requests >= 5 {
      var n, m := requests as real, replies as real;
      assert m / n * n == m;
      if m / n < minAnswered {
        assert (m / n) * n < minAnswered * n;
      } else {
        assert (m / n) * n >= minAnswered * n;
      }
    }
  }

  /** More answers never make a verdict worse, and fewer never make it better. */
  lemma MoreAnswersNoWorse(requests: nat, fewer: nat, more: nat, idleFor: Option<nat>, idleAllowed: nat, minAnswered: real)
    requires fewer <= more
    ensures Severity(JudgeRelay(requests, more, idleFor, idleAllowed, minAnswered).state)
         <= Severity(JudgeRelay(requests, fewer, idleFor, idleAllowed, minAnswered).state)
  {
    VerdictMeans(requests, fewer, idleFor, idleAllowed, minAnswered);
    VerdictMeans(requests, more, idleFor, idleAllowed, minAnswered);
  }

  function Severity(s: State): nat {
    match s
    case Working => 0
    case Unanswered => 1
    case Quiet => 2
  }

  /** `s` is the gravest state among the verdicts, and Working when there are none. */
  ghost predicate IsWorst(verdicts: seq<RelayVerdict>, s: State) {
    && (forall i :: 0 <= i < |verdicts| ==> Severity(verdicts[i].state) <= Severity(s))
    && (s == Working || exists i :: 0 <= i < |verdicts| && verdicts[i].state == s)
  }

  lemma WorstIsUnique(verdicts: seq<RelayVerdict>, s: State, t: State)
    requires IsWorst(verdicts, s) && IsWorst(verdicts, t)
    ensures s == t
  {
    if s != Working {
      var i :| 0 <= i < |verdicts| && verdicts[i].state == s;
      assert Severity(s) <= Severity(t);
    }
    if t != Working {
      var i :| 0 <= i < |verdicts| && verdicts[i].state == t;
      assert Severity(t) <= Severity(s);
    }
  }

  ghost function WorstOf(verdicts: seq<RelayVerdict>): State {
    if exists i :: 0 <= i < |verdicts| && verdicts[i].state == Quiet then Quiet
    else if exists i :: 0 <= i < |verdicts| && verdicts[i].state == Unanswered then Unanswered
    else Working
  }

  lemma WorstOfIsWorst(verdicts: seq<RelayVerdict>)
    ensures IsWorst(verdicts, WorstOf(verdicts))
  {
  }

  method Worst(verdicts: seq<RelayVerdict>) returns (out: State)
    ensures IsWorst(verdicts, out) && out == WorstOf(verdicts)
  {
    out := Working;
    for i := 0 to |verdicts|
      invariant IsWorst(verdicts[..i], out)
    {
      ghost var was := out;
      if out == Quiet || verdicts[i].state == Quiet {
        out := Quiet;
      } else if out == Unanswered || verdicts[i].state == Unanswered {
        out := Unanswered;
      } else {
        out := Working;
      }
      assert verdicts[..i + 1][i] == verdicts[i];
      if was != Working && out == was {
        var j :| 0 <= j < i && verdicts[..i][j].state == was;
        assert verdicts[..i + 1][j].state == was;
      }
    }
    assert verdicts[..|verdicts|] == verdicts;
    WorstOfIsWorst(verdicts);
    WorstIsUnique(verdicts, out, WorstOf(verdicts));
  }

  // The repeat gate.

  /** One consultation of the gate: the state seen and when. */
  datatype Sighting = Sighting(state: State, now: nat)

  /** A gate that remembers `last` lets `s` through: a change, or a trouble it was told of long enough ago. */
  function GateOpens(last: Option<Sighting>, after: nat, s: Sighting): bool {
    match last
    case None => s.state.IsTrouble()
    case Some(said) =>
      said.state != s.state || (s.state.IsTrouble() && Minus(s.now, said.now) >= after)
  }

  /** What is remembered after a run of consultations: the last thing let through. */
  function Remembered(seen: seq<Sighting>, after: nat): Option<Sighting> {
    if seen == [] then None
    else
      var last := Remembered(Front(seen), after);
      if GateOpens(last, after, Last(seen)) then Some(Last(seen)) else last
  }

  /** Which consultations of a run were answered yes. */
  function Sent(seen: seq<Sighting>, after: nat): (sent: seq<bool>)
    ensures |sent| == |seen|
  {
    if seen == [] then []
    else Sent(Front(seen), after) + [GateOpens(Remembered(Front(seen), after), after, Last(seen))]
  }

  class Repeats {
    const after: nat
    var last: Option<Sighting>
    ghost var seen: seq<Sighting>

    ghost predicate Valid()
      reads this
    {
      last == Remembered(seen, after)
    }

    constructor (after: nat)
      ensures Valid() && this.after == after && seen == []
    {
      this.after := after;
      last := None;
      seen := [];
    }

    method ShouldSend(state: State, now: nat) returns (send: bool)
      requires Valid()
      modifies this
      ensures Valid() && seen == old(seen) + [Sighting(state, now)]
      ensures send == Last(Sent(seen, after))
    {
      match last {
        case None => send := state.IsTrouble();
        case Some(said) =>
          if said.state != state {
            send := true;
          } else {
            send := state.IsTrouble() && Minus(now, said.now) >= after;
          }
      }
      if send {
        last := Some(Sighting(state, now));
      }
      seen := seen + [Sighting(state, now)];
      assert Front(seen) == old(seen);
    }
  }

  /** The state before consultation `i`: Working before the first. */
  function StateBefore(seen: seq<Sighting>, i: nat): State
    requires i <= |seen|
  {
    if i == 0 then Working else seen[i - 1].state
  }

  /** What the gate remembers always names the state just observed. */
  lemma {:induction false} RemembersWhatItSaw(seen: seq<Sighting>, after: nat)
    ensures var last := Remembered(seen, after);
            (if last.None? then Working else last.value.state) == StateBefore(seen, |seen|)
  {
    if seen != [] {
      RemembersWhatItSaw(Front(seen), after);
    }
  }

  lemma {:induction false} SentPrefix(seen: seq<Sighting>, after: nat, n: nat)
    requires n <= |seen|
    ensures |Sent(seen, after)| == |seen|
    ensures Sent(seen, after)[..n] == Sent(seen[..n], after)
    decreases |seen|
  {
    if n < |seen| {
      SentPrefix(Front(seen), after, n);
      assert seen[..n] == Front(seen)[..n];
      assert |Sent(seen, after)| == |Sent(Front(seen), after)| + 1;
      assert Sent(seen, after)[..n] == Sent(Front(seen), after)[..n];
    } else {
      assert seen[..n] == seen;
      if seen != [] {
        SentPrefix(Front(seen), after, |seen| - 1);
      }
      assert Sent(seen, after)[..n] == Sent(seen, after);
    }
  }

  /** Every change goes out, recovery included; without a change only trouble does. */
  lemma ChangesAlwaysSent(seen: seq<Sighting>, after: nat, i: nat)
    requires i < |seen|
    ensures |Sent(seen, after)| == |seen|
    ensures seen[i].state != StateBefore(seen, i) ==> Sent(seen, after)[i]
    ensures Sent(seen, after)[i] && seen[i].state == Working ==> StateBefore(seen, i) != Working
  {
    var p := seen[..i + 1];
    SentPrefix(seen, after, i + 1);
    SentPrefix(p, after, i);
    assert Front(p) == seen[..i] && Last(p) == seen[i];
    RemembersWhatItSaw(seen[..i], after);
    assert Sent(seen, after)[..i + 1][i] == Sent(p, after)[i];
    assert Sent(p, after) == Sent(Front(p), after) + [GateOpens(Remembered(Front(p), after), after, Last(p))];
    assert |Sent(Front(p), after)| == i by { SentPrefix(Front(p), after, i); }
  }

  /** Consultation `j` is the latest before `i` to have been answered yes. */
  ghost predicate LatestSent(seen: seq<Sighting>, after: nat, i: nat, j: nat) {
    j < i <= |seen| && Sent(seen, after)[j] && forall m :: j < m < i ==> !Sent(seen, after)[m]
  }

  /** The latest thing sent before consultation `i`, if there was one, is `after` seconds old. */
  ghost predicate LongSaid(seen: seq<Sighting>, after: nat, i: nat)
    requires i < |seen|
  {
    forall j :: 0 <= j < i && LatestSent(seen, after, i, j) ==> after == 0 || seen[j].now + after <= seen[i].now
  }

  lemma LatestOfFront(seen: seq<Sighting>, after: nat)
    requires seen != []
    ensures Sent(seen, after)[..|seen| - 1] == Sent(Front(seen), after)
    ensures Sent(seen, after)[|seen| - 1] == GateOpens(Remembered(Front(seen), after), after, Last(seen))
  {
  }

  /** What is remembered is the latest thing sent. */
  lemma {:induction false} RemembersLatestSent(seen: seq<Sighting>, after: nat) returns (j: nat)
    ensures Remembered(seen, after).None? ==> forall m :: 0 <= m < |seen| ==> !Sent(seen, after)[m]
    ensures Remembered(seen, after).Some? ==> LatestSent(seen, after, |seen|, j) && Remembered(seen, after) == Some(seen[j])
  {
    j := 0;
    if seen != [] {
      j := RemembersLatestSent(Front(seen), after);
      LatestOfFront(seen, after);
      var sent := Sent(seen, after);
      assert forall m :: 0 <= m < |seen| - 1 ==> sent[m] == Sent(Front(seen), after)[m];
      if sent[|seen| - 1] {
        j := |seen| - 1;
      }
    }
  }

  lemma OneLatest(seen: seq<Sighting>, after: nat, i: nat, j: nat, k: nat)
    requires LatestSent(seen, after, i, j) && LatestSent(seen, after, i, k)
    ensures j == k
  {
  }

  /** The latest sent before the last consultation, seen from the run that ends with it. */
  lemma LatestBeforeLast(seen: seq<Sighting>, after: nat, j: nat)
    requires seen != []
    ensures LatestSent(seen, after, |seen| - 1, j) <==> LatestSent(Front(seen), after, |seen| - 1, j)
  {
    LatestOfFront(seen, after);
    assert forall m :: 0 <= m < |seen| - 1 ==> Sent(seen, after)[m] == Sent(Front(seen), after)[m];
  }

  lemma LastSentExactly(seen: seq<Sighting>, after: nat)
    requires seen != []
    ensures Last(Sent(seen, after)) <==>
      || Last(seen).state != StateBefore(seen, |seen| - 1)
      || (Last(seen).state != Working && LongSaid(seen, after, |seen| - 1))
  {
    var p, i := Front(seen), |seen| - 1;
    LatestOfFront(seen, after);
    RemembersWhatItSaw(p, after);
    var j := RemembersLatestSent(p, after);
    if Remembered(p, after).Some? {
      LatestBeforeLast(seen, after, j);
      forall k | 0 <= k < i && LatestSent(seen, after, i, k)
        ensures k == j
      {
        OneLatest(seen, after, i, j, k);
      }
    } else {
      forall k | 0 <= k < i
        ensures !LatestSent(seen, after, i, k)
      {
        LatestBeforeLast(seen, after, k);
      }
    }
  }

  /**
   What is sent, said without the gate's memory: every change, and a trouble that lasts each
   time the latest thing sent has grown `after` seconds old.
   */
  lemma SentExactly(seen: seq<Sighting>, after: nat, i: nat)
    requires i < |seen|
    ensures Sent(seen, after)[i] <==>
      || seen[i].state != StateBefore(seen, i)
      || (seen[i].state != Working && LongSaid(seen, after, i))
  {
    var p := seen[..i + 1];
    SentPrefix(seen, after, i + 1);
    LastSentExactly(p, after);
    assert forall m :: 0 <= m <= i ==> Sent(seen, after)[m] == Sent(p, after)[m] && p[m] == seen[m];
    assert StateBefore(p, i) == StateBefore(seen, i);
    assert forall j :: LatestSent(seen, after, i, j) <==> LatestSent(p, after, i, j);
  }

  /** A trouble everything said about which is `after` seconds old is said again. */
  lemma TroubleComesAgain(seen: seq<Sighting>, after: nat, i: nat)
    requires i < |seen| && seen[i].state != Working
    requires forall j :: 0 <= j < i && Sent(seen, after)[j] ==> seen[j].now + after <= seen[i].now
    ensures Sent(seen, after)[i]
  {
    SentExactly(seen, after, i);
  }

  function CountTrue(b: seq<bool>): nat {
    if b == [] then 0 else CountTrue(Front(b)) + if Last(b) then 1 else 0
  }

  function Changes(seen: seq<Sighting>): nat {
    if seen == [] then 0
    else Changes(Front(seen)) + if Last(seen).state != StateBefore(seen, |seen| - 1) then 1 else 0
  }

  ghost predicate Forward(seen: seq<Sighting>) {
    forall i, j :: 0 <= i < j < |seen| ==> seen[i].now <= seen[j].now
  }

  /** Repeats are paid for in time: each one costs `after` seconds since the last thing sent. */
  lemma {:induction false} RepeatsCostTime(seen: seq<Sighting>, after: nat) returns (repeats: nat)
    requires Forward(seen)
    ensures CountTrue(Sent(seen, after)) == Changes(seen) + repeats
    ensures Remembered(seen, after).None? ==> repeats == 0
    ensures Remembered(seen, after).Some? ==>
      && seen != []
      && seen[0].now + repeats * after <= Remembered(seen, after).value.now <= Last(seen).now
  {
    if seen == [] {
      repeats := 0;
    } else {
      var p := Front(seen);
      repeats := RepeatsCostTime(p, after);
      RemembersWhatItSaw(p, after);
      assert Front(Sent(seen, after)) == Sent(p, after);
      var last := Remembered(p, after);
      if GateOpens(last, after, Last(seen)) && Last(seen).state == StateBefore(seen, |p|) {
        assert (repeats + 1) * after == repeats * after + after;
        repeats := repeats + 1;
      }
    }
  }

  /** An afternoon-long outage is not fifty traps: sends are changes plus at most one per `after`. */
  lemma SendsAreBounded(seen: seq<Sighting>, after: nat)
    requires seen != [] && Forward(seen) && after > 0
    ensures Changes(seen) <= CountTrue(Sent(seen, after))
         <= Changes(seen) + (Last(seen).now - seen[0].now) / after
  {
    var repeats := RepeatsCostTime(seen, after);
    var span := Last(seen).now - seen[0].now;
    if repeats > 0 {
      assert repeats * after <= span;
      DivideBound(repeats, after, span);
    }
  }

  lemma DivideBound(q: nat, d: nat, n: nat)
    requires d > 0 && q * d <= n
    ensures q <= n / d
  {
    var c := n / d;
    assert n < c * d + d;
    if c + 1 <= q {
      ScaledOrder(c + 1, q, d);
    }
  }
}
