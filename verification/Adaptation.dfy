/** src/adapt.rs: turning what was watched into an idle threshold for each interface. */
module Adaptation {
  import opened Common
  import opened RelayTable
  import opened RelayRows
  import RelayLimits

  const FLOOR: nat := 300
  const CEILING: nat := 86_400
  const HEADROOM: nat := 3

  datatype Suggestion = Suggestion(gi: Gi, requests: nat, span: nat, longestGap: nat, idleSeconds: Option<nat>)

  function Clamp(n: nat): nat {
    if n < FLOOR then FLOOR else if n > CEILING then CEILING else n
  }

  function Judge(requests: nat, longestGap: nat): Option<nat> {
    if requests < 2 then None else Some(Clamp(longestGap * HEADROOM))
  }

  /** From the first packet of any kind to the last request. */
  function Span(r: Relay): nat {
    if r.lastRequest.Some? then Minus(r.lastRequest.value, r.firstSeen) else 0
  }

  function SuggestOne(gi: Gi, r: Relay): Suggestion {
    Suggestion(gi, r.requests, Span(r), r.longestGap, Judge(r.requests, r.longestGap))
  }

  function Suggest(t: Table): (all: seq<Suggestion>)
    ensures |all| == |EachOf(t)|
    ensures forall i :: 0 <= i < |all| ==> all[i] == SuggestOne(EachOf(t)[i].0, EachOf(t)[i].1)
  {
    var rows := EachOf(t);
    seq(|rows|, i requires 0 <= i < |rows| => SuggestOne(rows[i].0, rows[i].1))
  }

  /** Every interface that relayed anything gets one line, in address order, and no other does. */
  lemma SuggestionsCoverRelays(h: seq<Event>, g: Gi)
    ensures var all := Suggest(Run(h));
            && (Readings(h, Some(g), Sighted) != [] <==> exists i :: 0 <= i < |all| && all[i].gi == g)
            && (forall i, j :: 0 <= i < j < |all| ==> all[i].gi < all[j].gi)
  {
    var t, rows, all := Run(h), EachOf(Run(h)), Suggest(Run(h));
    EachListsEveryRow(t);
    RowsRefineHistory(h, Some(g));
    assert forall i :: 0 <= i < |all| ==> all[i].gi == rows[i].0;
    if g in t.byGi {
      var i :| 0 <= i < |rows| && rows[i] == (g, t.byGi[g]);
      assert all[i].gi == g;
    }
  }

  /** Two requests earn an interface a number; fewer say nothing about silence. */
  lemma TwoRequestsEarnANumber(h: seq<Event>, i: nat)
    requires i < |Suggest(Run(h))|
    ensures var s := Suggest(Run(h))[i];
            && s.requests == |Readings(h, Some(s.gi), Requested)|
            && (s.idleSeconds.Some? <==> s.requests >= 2)
  {
    EachListsEveryRow(Run(h));
    RowsRefineHistory(h, Some(EachOf(Run(h))[i].0));
  }

  /** Three times the longest gap between two requests, but at least five minutes and at most a day. */
  ghost predicate IsThreefold(times: seq<nat>, k: nat) {
    && 300 <= k <= 86_400
    && (forall i :: 0 < i < |times| ==> k >= Common.Min(3 * Gap(times, i), 86_400))
    && (k == 300 || exists i :: 0 < i < |times| && k <= 3 * Gap(times, i))
  }

  /** That fixes the number. */
  lemma ThreefoldIsUnique(times: seq<nat>, k: nat, l: nat)
    requires IsThreefold(times, k) && IsThreefold(times, l)
    ensures k == l
  {
  }

  /**
   What a relay's line of suggestions says: how often it asked, from its first packet of any
   kind to its last request, the longest gap between two requests, and from two requests on
   three times that gap within five minutes and a day.
   */
  lemma SuggestionSays(h: seq<Event>, i: nat)
    requires i < |Suggest(Run(h))|
    ensures var s := Suggest(Run(h))[i];
            var times, seen := Readings(h, Some(s.gi), Requested), Readings(h, Some(s.gi), Sighted);
            && s.requests == |times|
            && s.span == (if times == [] || seen == [] then 0 else Minus(Last(times), seen[0]))
            && IsLongestGap(times, s.longestGap)
            && (s.idleSeconds.Some? <==> |times| >= 2)
            && (s.idleSeconds.Some? ==> IsThreefold(times, s.idleSeconds.value))
  {
    var g := Suggest(Run(h))[i].gi;
    EachListsEveryRow(Run(h));
    RowsRefineHistory(h, Some(g));
    SpanMeans(h, g);
    if |Readings(h, Some(g), Requested)| >= 2 {
      ClampIsThreefold(Readings(h, Some(g), Requested), Run(h).Row(Some(g)).longestGap);
    }
  }

  lemma ClampIsThreefold(times: seq<nat>, gap: nat)
    requires IsLongestGap(times, gap)
    ensures IsThreefold(times, Clamp(gap * HEADROOM))
  {
    forall i | 0 < i < |times|
      ensures Clamp(gap * HEADROOM) >= Common.Min(3 * Gap(times, i), 86_400)
    {
      assert Gap(times, i) <= gap;
    }
  }

  /**
   A suggestion is a sane number, and never below three times the mean spacing of requests,
   up to a day: multiplied out, three times the span over all the gaps in it.
   */
  lemma SuggestionIsRoomy(h: seq<Event>, g: Gi)
    requires |Readings(h, Some(g), Requested)| >= 2
    ensures var r, times := Run(h).Row(Some(g)), Readings(h, Some(g), Requested);
            var k, gaps := Judge(r.requests, r.longestGap), |times| - 1;
            && k.Some? && 300 <= k.value <= 86_400
            && k.value * gaps >= Common.Min(3 * Minus(Last(times), times[0]), 86_400 * gaps)
  {
    RowsRefineHistory(h, Some(g));
    RoomOverGaps(Readings(h, Some(g), Requested), Run(h).Row(Some(g)).longestGap);
  }

  lemma RoomOverGaps(times: seq<nat>, gap: nat)
    requires |times| >= 2 && GapsWithin(times, gap)
    ensures var gaps := |times| - 1;
            Clamp(gap * HEADROOM) * gaps >= Common.Min(HEADROOM * Minus(Last(times), times[0]), CEILING * gaps)
  {
    RelayLimits.SpanWithin(times, gap);
    ClampedOverGaps(gap, |times| - 1, Minus(Last(times), times[0]));
  }

  lemma ClampedOverGaps(gap: nat, gaps: nat, span: nat)
    requires span <= gap * gaps
    ensures Clamp(gap * HEADROOM) * gaps >= Common.Min(HEADROOM * span, CEILING * gaps)
  {
    if gap * HEADROOM <= CEILING {
      ScaledOrder(gap * HEADROOM, Clamp(gap * HEADROOM), gaps);
      assert gap * HEADROOM * gaps == HEADROOM * (gap * gaps);
    }
  }

  /** Every instant from each request until the next one, and `k` seconds past the last. */
  ghost predicate Covered(times: seq<nat>, k: nat, i: nat, at: nat) {
    i < |times| && times[i] <= at <= if i + 1 < |times| then times[i + 1] else times[i] + k
  }

  /** Traffic with these request times is never silent for more than `k` seconds. */
  ghost predicate NeverSilent(times: seq<nat>, k: nat) {
    forall i: nat, at: nat :: Covered(times, k, i, at) ==> at - times[i] <= k
  }

  lemma NeverSilentIsGaps(times: seq<nat>, k: nat)
    ensures NeverSilent(times, k) <==> GapsWithin(times, k)
  {
    if NeverSilent(times, k) {
      forall i | 0 < i < |times|
        ensures Gap(times, i) <= k
      {
        if times[i - 1] <= times[i] {
          assert Covered(times, k, i - 1, times[i]);
        }
      }
    }
    if GapsWithin(times, k) {
      forall i: nat, at: nat | Covered(times, k, i, at)
        ensures at - times[i] <= k
      {
        if i + 1 < |times| {
          assert Gap(times, i + 1) <= k;
        }
      }
    }
  }

  /**
   The measured threshold fits the traffic it was measured from exactly when the longest gap
   is a day or less, and all traffic with gaps up to three times that exactly when the day
   does not cut the headroom short.
   */
  lemma ThresholdFitsItsTraffic(h: seq<Event>, g: Gi)
    requires |Readings(h, Some(g), Requested)| >= 2
    ensures var gap := Run(h).Row(Some(g)).longestGap;
            var k := Judge(Run(h).Row(Some(g)).requests, gap);
            && k.Some?
            && (NeverSilent(Readings(h, Some(g), Requested), k.value) <==> gap <= 86_400)
            && ((forall others :: GapsWithin(others, 3 * gap) ==> NeverSilent(others, k.value))
                  <==> 3 * gap <= 86_400)
  {
    RowsRefineHistory(h, Some(g));
    var gap := Run(h).Row(Some(g)).longestGap;
    var k := Judge(Run(h).Row(Some(g)).requests, gap).value;
    NeverSilentIsGaps(Readings(h, Some(g), Requested), k);
    forall others | GapsWithin(others, 3 * gap) && 3 * gap <= 86_400
      ensures NeverSilent(others, k)
    {
      NeverSilentIsGaps(others, k);
    }
    var wide := [0, 3 * gap];
    NeverSilentIsGaps(wide, k);
    assert Gap(wide, 1) == 3 * gap;
  }

  /** The span a suggestion shows runs from the first packet of any kind to the last request. */
  lemma SpanMeans(h: seq<Event>, g: Gi)
    ensures Span(Run(h).Row(Some(g))) ==
      if Readings(h, Some(g), Requested) == [] || Readings(h, Some(g), Sighted) == [] then 0
      else Minus(Last(Readings(h, Some(g), Requested)), Readings(h, Some(g), Sighted)[0])
  {
    RowsRefineHistory(h, Some(g));
    RequestsAreSightings(h, g);
  }

  lemma {:induction false} RequestsAreSightings(h: seq<Event>, g: Gi)
    ensures |Readings(h, Some(g), Requested)| <= |Readings(h, Some(g), Sighted)|
  {
    if h != [] {
      RequestsAreSightings(Front(h), g);
    }
  }
}
