/** src/counters.rs: one-second buckets and a table of flows, over a sliding window. */
module SlidingWindow {
  import opened Common
  import opened Packet

  datatype Flow = Flow(src: Addr, dst: Addr, gi: Option<nat>)

  /** One count for each kind, as the array the Rust indexes by slot. */
  datatype Counts = Counts(requests: nat, replies: nat, fileReads: nat, fileSends: nat) {
    function Of(k: Kind): nat {
      match k
      case ClientRequest => requests
      case ServerReply => replies
      case TftpRequest => fileReads
      case TftpReply => fileSends
    }

    function Bump(k: Kind): Counts {
      match k
      case ClientRequest => this.(requests := requests + 1)
      case ServerReply => this.(replies := replies + 1)
      case TftpRequest => this.(fileReads := fileReads + 1)
      case TftpReply => this.(fileSends := fileSends + 1)
    }

    function Plus(c: Counts): Counts {
      Counts(requests + c.requests, replies + c.replies, fileReads + c.fileReads, fileSends + c.fileSends)
    }

    function Total(): nat {
      requests + replies + fileReads + fileSends
    }
  }

  const ZERO := Counts(0, 0, 0, 0)

  datatype Bucket = Bucket(at: nat, counts: Counts)

  datatype Dest = Dest(counts: Counts, last: nat)

  /** What the capture loop tells the counters; `Expire` is every way of reading them. */
  datatype Event =
    | Add(kind: Kind, flow: Flow, now: nat)
    | Expire(now: nat)

  datatype Tally = Tally(buckets: seq<Bucket>, flows: map<Flow, Dest>, total: Counts)

  function Cutoff(window: nat, now: nat): nat {
    Minus(now, window)
  }

  function Retain(buckets: seq<Bucket>, cutoff: nat): seq<Bucket> {
    if buckets == [] then []
    else Retain(Front(buckets), cutoff) + if Last(buckets).at > cutoff then [Last(buckets)] else []
  }

  function Expired(t: Tally, cutoff: nat): Tally {
    t.(buckets := Retain(t.buckets, cutoff),
       flows := map f | f in t.flows && t.flows[f].last > cutoff :: t.flows[f])
  }

  function InBucket(buckets: seq<Bucket>, k: Kind, now: nat): seq<Bucket> {
    if buckets != [] && Last(buckets).at == now
    then Front(buckets) + [Bucket(now, Last(buckets).counts.Bump(k))]
    else buckets + [Bucket(now, ZERO.Bump(k))]
  }

  function Step(window: nat, t: Tally, e: Event): Tally {
    var x := Expired(t, Cutoff(window, e.now));
    match e
    case Expire(_) => x
    case Add(k, f, now) =>
      var was := if f in x.flows then x.flows[f].counts else ZERO;
      Tally(InBucket(x.buckets, k, now), x.flows[f := Dest(was.Bump(k), now)], x.total.Bump(k))
  }

  function Run(window: nat, h: seq<Event>): Tally {
    if h == [] then Tally([], map[], ZERO) else Step(window, Run(window, Front(h)), Last(h))
  }

  function SumBuckets(buckets: seq<Bucket>): Counts {
    if buckets == [] then ZERO else SumBuckets(Front(buckets)).Plus(Last(buckets).counts)
  }

  lemma RunAppend(window: nat, h: seq<Event>, e: Event)
    ensures Run(window, h + [e]) == Step(window, Run(window, h), e)
  {
    assert Front(h + [e]) == h;
  }

  // The order `by_flow` sorts into.

  /** Lexicographic order on numbers, which is how the derived order compares field by field. */
  predicate Below(a: seq<int>, b: seq<int>) {
    if b == [] then false
    else if a == [] then true
    else a[0] < b[0] || (a[0] == b[0] && Below(a[1..], b[1..]))
  }

  function AddrKey(a: Addr): seq<int> {
    match a
    case V4(quad) => [0] + Ints(quad)
    case V6(sixteen) => [1] + Ints(sixteen)
  }

  function Ints(s: seq<Byte>): (r: seq<int>)
    ensures |r| == |s| && forall i :: 0 <= i < |s| ==> r[i] == s[i]
  {
    seq(|s|, i requires 0 <= i < |s| => s[i])
  }

  function Negated(n: nat): int {
    -(n as int)
  }

  function GiKey(gi: Option<nat>): seq<int> {
    if gi.None? then [0] else [1, gi.value]
  }

  /** The flow's own order: source, destination, gi-address (none first). */
  function FlowKey(f: Flow): seq<int> {
    AddrKey(f.src) + (AddrKey(f.dst) + GiKey(f.gi))
  }

  /** Busiest first, then the flow's own order. */
  function RowKey(row: (Flow, Dest)): seq<int> {
    [Negated(row.1.counts.Total())] + FlowKey(row.0)
  }

  ghost predicate Sorted(rows: seq<(Flow, Dest)>) {
    forall i, j :: 0 <= i < j < |rows| ==> Below(RowKey(rows[i]), RowKey(rows[j]))
  }

  /** `rows` lists every entry of `flows` once and nothing else. */
  ghost predicate Lists(rows: seq<(Flow, Dest)>, flows: map<Flow, Dest>) {
    && (forall i :: 0 <= i < |rows| ==> rows[i].0 in flows && flows[rows[i].0] == rows[i].1)
    && (forall f :: f in flows ==> exists i :: 0 <= i < |rows| && rows[i] == (f, flows[f]))
    && (forall i, j :: 0 <= i < j < |rows| ==> rows[i].0 != rows[j].0)
  }

  lemma {:induction false} BelowTotal(a: seq<int>, b: seq<int>)
    ensures Below(a, b) || a == b || Below(b, a)
    ensures !(Below(a, b) && Below(b, a))
    ensures !Below(a, a)
  {
    if a != [] && b != [] {
      BelowTotal(a[1..], b[1..]);
      assert a == [a[0]] + a[1..] && b == [b[0]] + b[1..];
    }
    if a != [] {
      BelowTotal(a[1..], a[1..]);
    }
  }

  lemma {:induction false} BelowTransitive(a: seq<int>, b: seq<int>, c: seq<int>)
    requires Below(a, b) && Below(b, c)
    ensures Below(a, c)
  {
    if a != [] && a[0] == b[0] && b[0] == c[0] {
      BelowTransitive(a[1..], b[1..], c[1..]);
    }
  }

  lemma KeyNamesAddr(a: Addr, b: Addr)
    requires AddrKey(a) == AddrKey(b)
    ensures a == b
  {
    assert AddrKey(a)[0] == AddrKey(b)[0];
    var s, t := if a.V4? then a.quad else a.sixteen, if b.V4? then b.quad else b.sixteen;
    forall i | 0 <= i < |s|
      ensures s[i] == t[i]
    {
      assert AddrKey(a)[i + 1] == AddrKey(b)[i + 1];
    }
    assert s == t;
  }

  lemma AddrKeyPrefix(a: Addr, b: Addr, s: seq<int>, t: seq<int>)
    requires AddrKey(a) + s == AddrKey(b) + t
    ensures a == b && s == t
  {
    var x, y := AddrKey(a) + s, AddrKey(b) + t;
    assert x[0] == y[0];
    assert |AddrKey(a)| == |AddrKey(b)|;
    assert forall i :: 0 <= i < |AddrKey(a)| ==> AddrKey(a)[i] == x[i] && AddrKey(b)[i] == y[i];
    KeyNamesAddr(a, b);
    assert s == x[|AddrKey(a)|..] && t == y[|AddrKey(b)|..];
  }

  /** Two rows with the same key are rows of the same flow. */
  lemma KeyNamesFlow(r: (Flow, Dest), s: (Flow, Dest))
    requires RowKey(r) == RowKey(s)
    ensures r.0 == s.0
  {
    assert RowKey(r)[1..] == FlowKey(r.0) && RowKey(s)[1..] == FlowKey(s.0);
    AddrKeyPrefix(r.0.src, s.0.src, AddrKey(r.0.dst) + GiKey(r.0.gi), AddrKey(s.0.dst) + GiKey(s.0.gi));
    AddrKeyPrefix(r.0.dst, s.0.dst, GiKey(r.0.gi), GiKey(s.0.gi));
    assert GiKey(r.0.gi)[0] == GiKey(s.0.gi)[0];
    assert r.0.gi.Some? ==> GiKey(r.0.gi)[1] == GiKey(s.0.gi)[1];
  }

  /** There is only one busiest-first listing of a table. */
  lemma {:induction false} ListingIsUnique(a: seq<(Flow, Dest)>, b: seq<(Flow, Dest)>, flows: map<Flow, Dest>)
    requires Lists(a, flows) && Lists(b, flows) && Sorted(a) && Sorted(b)
    ensures a == b
    decreases |a|
  {
    if a == [] && b != [] {
      SameFirst(b, a, flows);
    } else if a != [] {
      SameFirst(a, b, flows);
      TailsList(a, b, flows);
      ListingIsUnique(a[1..], b[1..], flows - {a[0].0});
      FirstAndRest(a, b);
    }
  }

  /** The one busiest-first listing of a table. */
  ghost function Listing(flows: map<Flow, Dest>): seq<(Flow, Dest)> {
    if exists rows :: Lists(rows, flows) && Sorted(rows) then
      var rows :| Lists(rows, flows) && Sorted(rows);
      rows
    else []
  }

  lemma ListingIs(rows: seq<(Flow, Dest)>, flows: map<Flow, Dest>)
    requires Lists(rows, flows) && Sorted(rows)
    ensures rows == Listing(flows)
  {
    ListingIsUnique(rows, Listing(flows), flows);
  }

  lemma FirstAndRest<T>(a: seq<T>, b: seq<T>)
    requires a != [] && b != [] && a[0] == b[0] && a[1..] == b[1..]
    ensures a == b
  {
    assert a == [a[0]] + a[1..] && b == [b[0]] + b[1..];
  }

  lemma TailsList(a: seq<(Flow, Dest)>, b: seq<(Flow, Dest)>, flows: map<Flow, Dest>)
    requires Lists(a, flows) && Lists(b, flows) && Sorted(a) && Sorted(b)
    requires a != [] && b != [] && a[0] == b[0]
    ensures Lists(a[1..], flows - {a[0].0}) && Lists(b[1..], flows - {a[0].0}) && Sorted(a[1..]) && Sorted(b[1..])
  {
    RestLists(a, flows);
    RestLists(b, flows);
  }

  lemma SameFirst(a: seq<(Flow, Dest)>, b: seq<(Flow, Dest)>, flows: map<Flow, Dest>)
    requires Lists(a, flows) && Lists(b, flows) && Sorted(a) && Sorted(b) && a != []
    ensures b != [] && a[0] == b[0]
  {
    assert a[0].0 in flows && a[0] == (a[0].0, flows[a[0].0]);
    var i :| 0 <= i < |b| && b[i] == a[0];
    assert b[0].0 in flows && b[0] == (b[0].0, flows[b[0].0]);
    var j :| 0 <= j < |a| && a[j] == b[0];
    if i > 0 && j > 0 {
      assert Below(RowKey(b[0]), RowKey(b[i]));
      assert Below(RowKey(a[0]), RowKey(a[j]));
      BelowTotal(RowKey(a[0]), RowKey(b[0]));
    }
  }

  lemma RestFinds(a: seq<(Flow, Dest)>, flows: map<Flow, Dest>, f: Flow) returns (i: nat)
    requires a != [] && Lists(a, flows) && f in flows && f != a[0].0
    ensures i < |a[1..]| && a[1..][i] == (f, flows[f])
  {
    var j :| 0 <= j < |a| && a[j] == (f, flows[f]);
    i := j - 1;
  }

  lemma RestLists(a: seq<(Flow, Dest)>, flows: map<Flow, Dest>)
    requires a != [] && Lists(a, flows) && Sorted(a)
    ensures Lists(a[1..], flows - {a[0].0}) && Sorted(a[1..])
  {
    var rest := flows - {a[0].0};
    forall f | f in rest
      ensures exists i :: 0 <= i < |a[1..]| && a[1..][i] == (f, rest[f])
    {
      var i := RestFinds(a, flows, f);
    }
  }

  /** The mutable counters of the running monitor, tied to everything they were ever told. */
  class Counters {
    const window: nat
    var buckets: seq<Bucket>
    var flows: map<Flow, Dest>
    var totals: Counts
    ghost var history: seq<Event>

    ghost predicate Valid()
      reads this
    {
      window >= 1 && Contents() == Run(window, history)
    }

    ghost function Contents(): Tally
      reads this
    {
      Tally(buckets, flows, totals)
    }

    constructor (window: nat)
      ensures Valid() && history == [] && this.window == Common.Max(window, 1)
    {
      this.window := Common.Max(window, 1);
      buckets, flows, totals := [], map[], ZERO;
      history := [];
    }

    method Add(kind: Kind, flow: Flow, now: nat)
      requires Valid()
      modifies this
      ensures Valid() && history == old(history) + [Event.Add(kind, flow, now)]
    {
      Drop(now);
      ghost var kept := buckets;
      if buckets != [] && Last(buckets).at == now {
        buckets := buckets[|buckets| - 1 := Bucket(now, Last(buckets).counts.Bump(kind))];
      } else {
        buckets := buckets + [Bucket(now, ZERO.Bump(kind))];
      }
      assert buckets == InBucket(kept, kind, now);
      var d := if flow in flows then flows[flow] else Dest(ZERO, 0);
      flows := flows[flow := Dest(d.counts.Bump(kind), now)];
      totals := totals.Bump(kind);
      history := history + [Event.Add(kind, flow, now)];
      RunAppend(window, old(history), Last(history));
    }

    method Expire(now: nat)
      requires Valid()
      modifies this
      ensures Valid() && history == old(history) + [Event.Expire(now)]
    {
      Drop(now);
      history := history + [Event.Expire(now)];
      RunAppend(window, old(history), Last(history));
    }

    /** `expire`, before it is recorded as a reading or as the start of an `add`. */
    method Drop(now: nat)
      modifies this`buckets, this`flows
      ensures Contents() == Expired(old(Contents()), Cutoff(window, now))
    {
      var cutoff := Cutoff(window, now);
      buckets := Retain(buckets, cutoff);
      flows := map f | f in flows && flows[f].last > cutoff :: flows[f];
    }

    method Window(now: nat) returns (sum: Counts)
      requires Valid()
      modifies this
      ensures Valid() && history == old(history) + [Event.Expire(now)]
      ensures sum == SumBuckets(Run(window, history).buckets)
    {
      Expire(now);
      sum := ZERO;
      for i := 0 to |buckets|
        invariant sum == SumBuckets(buckets[..i])
      {
        sum := sum.Plus(buckets[i].counts);
        assert Front(buckets[..i + 1]) == buckets[..i];
      }
      assert buckets[..|buckets|] == buckets;
    }

    method ByFlow(now: nat) returns (out: seq<(Flow, Dest)>)
      requires Valid()
      modifies this
      ensures Valid() && history == old(history) + [Event.Expire(now)]
      ensures Lists(out, Run(window, history).flows) && Sorted(out)
      ensures out == Listing(Run(window, history).flows)
    {
      Expire(now);
      out := SortedFlows();
      ListingIs(out, flows);
    }

    /** Every flow of the table, put one by one where it belongs. */
    method SortedFlows() returns (out: seq<(Flow, Dest)>)
      ensures Lists(out, flows) && Sorted(out)
    {
      var left := flows.Keys;
      out := [];
      while left != {}
        invariant left <= flows.Keys
        invariant Lists(out, flows - left)
        invariant Sorted(out)
        decreases |left|
      {
        var f :| f in left;
        ghost var before := flows - left;
        out := Insert(out, (f, flows[f]), flows - left);
        left := left - {f};
        assert before[f := flows[f]] == flows - left;
      }
      assert flows - {} == flows;
    }
  }

  /** Puts one more row where it belongs. */
  method Insert(rows: seq<(Flow, Dest)>, row: (Flow, Dest), ghost flows: map<Flow, Dest>) returns (out: seq<(Flow, Dest)>)
    requires Lists(rows, flows) && Sorted(rows) && row.0 !in flows
    ensures Lists(out, flows[row.0 := row.1]) && Sorted(out)
  {
    var at := PlaceFor(KeysOf(rows), RowKey(row));
    out := rows[..at] + [row] + rows[at..];
    InsertedIsSorted(rows, row, at, flows);
    InsertedLists(rows, row, at, flows);
  }

  function KeysOf(rows: seq<(Flow, Dest)>): (keys: seq<seq<int>>)
    ensures |keys| == |rows| && forall i :: 0 <= i < |rows| ==> keys[i] == RowKey(rows[i])
  {
    seq(|rows|, i requires 0 <= i < |rows| => RowKey(rows[i]))
  }

  /** How many of the keys go before the new one. */
  method PlaceFor(keys: seq<seq<int>>, key: seq<int>) returns (at: nat)
    ensures at <= |keys|
    ensures forall i :: 0 <= i < at ==> Below(keys[i], key)
    ensures at < |keys| ==> !Below(keys[at], key)
  {
    at := 0;
    while at < |keys| && Below(keys[at], key)
      invariant at <= |keys|
      invariant forall i :: 0 <= i < at ==> Below(keys[i], key)
    {
      at := at + 1;
    }
  }

  lemma InsertedIsSorted(rows: seq<(Flow, Dest)>, row: (Flow, Dest), at: nat, flows: map<Flow, Dest>)
    requires Lists(rows, flows) && Sorted(rows) && row.0 !in flows && at <= |rows|
    requires forall i :: 0 <= i < at ==> Below(RowKey(rows[i]), RowKey(row))
    requires at < |rows| ==> !Below(RowKey(rows[at]), RowKey(row))
    ensures Sorted(rows[..at] + [row] + rows[at..])
  {
    InsertedAt(rows, row, at);
    forall i | at <= i < |rows|
      ensures Below(RowKey(row), RowKey(rows[i]))
    {
      FirstAfter(rows, row, at, i);
    }
  }

  /** The row the new one stops at, and every row behind it, comes after the new one. */
  lemma FirstAfter(rows: seq<(Flow, Dest)>, row: (Flow, Dest), at: nat, i: nat)
    requires Sorted(rows) && at <= i < |rows| && rows[at].0 != row.0
    requires !Below(RowKey(rows[at]), RowKey(row))
    ensures Below(RowKey(row), RowKey(rows[i]))
  {
    BelowTotal(RowKey(row), RowKey(rows[at]));
    if RowKey(row) == RowKey(rows[at]) {
      KeyNamesFlow(row, rows[at]);
    }
    if at < i {
      BelowTransitive(RowKey(row), RowKey(rows[at]), RowKey(rows[i]));
    }
  }

  lemma InsertedLists(rows: seq<(Flow, Dest)>, row: (Flow, Dest), at: nat, flows: map<Flow, Dest>)
    requires Lists(rows, flows) && row.0 !in flows && at <= |rows|
    ensures Lists(rows[..at] + [row] + rows[at..], flows[row.0 := row.1])
  {
    var out, more := rows[..at] + [row] + rows[at..], flows[row.0 := row.1];
    InsertedAt(rows, row, at);
    forall f | f in more
      ensures exists i :: 0 <= i < |out| && out[i] == (f, more[f])
    {
      var i := InsertedFinds(rows, row, at, flows, f);
      assert out[i] == (f, more[f]);
    }
    InsertedDiffer(rows, row, at, out);
  }

  lemma InsertedFinds(rows: seq<(Flow, Dest)>, row: (Flow, Dest), at: nat, flows: map<Flow, Dest>, f: Flow) returns (i: nat)
    requires Lists(rows, flows) && at <= |rows| && f in flows[row.0 := row.1]
    ensures i <= |rows| && (rows[..at] + [row] + rows[at..])[i] == (f, flows[row.0 := row.1][f])
  {
    InsertedAt(rows, row, at);
    if f == row.0 {
      i := at;
    } else {
      i :| 0 <= i < |rows| && rows[i] == (f, flows[f]);
      i := if i < at then i else i + 1;
    }
  }

  lemma InsertedDiffer(rows: seq<(Flow, Dest)>, row: (Flow, Dest), at: nat, out: seq<(Flow, Dest)>)
    requires at <= |rows| && out == rows[..at] + [row] + rows[at..]
    requires forall i, j :: 0 <= i < j < |rows| ==> rows[i].0 != rows[j].0
    requires forall i :: 0 <= i < |rows| ==> rows[i].0 != row.0
    ensures forall i, j :: 0 <= i < j < |out| ==> out[i].0 != out[j].0
  {
    InsertedAt(rows, row, at);
  }

  lemma InsertedAt(rows: seq<(Flow, Dest)>, row: (Flow, Dest), at: nat)
    requires at <= |rows|
    ensures var out := rows[..at] + [row] + rows[at..];
            && |out| == |rows| + 1 && out[at] == row
            && (forall i :: 0 <= i < at ==> out[i] == rows[i])
            && (forall i :: at < i < |out| ==> out[i] == rows[i - 1])
            && (forall i :: at <= i < |rows| ==> out[i + 1] == rows[i])
  {
  }

  lemma {:induction false} PlaceExists(rows: seq<(Flow, Dest)>, key: seq<int>, n: nat) returns (at: nat)
    requires n <= |rows|
    ensures at <= n
    ensures forall i :: 0 <= i < at ==> Below(RowKey(rows[i]), key)
    ensures at < n ==> !Below(RowKey(rows[at]), key)
  {
    if n == 0 {
      at := 0;
    } else {
      at := PlaceExists(rows, key, n - 1);
      if at == n - 1 && Below(RowKey(rows[at]), key) {
        at := n;
      }
    }
  }

  lemma OneMoreListed(rows: seq<(Flow, Dest)>, row: (Flow, Dest), flows: map<Flow, Dest>)
    requires Lists(rows, flows) && Sorted(rows) && row.0 !in flows
    ensures var more := flows[row.0 := row.1]; Lists(Listing(more), more) && Sorted(Listing(more))
  {
    var at := PlaceExists(rows, RowKey(row), |rows|);
    InsertedIsSorted(rows, row, at, flows);
    InsertedLists(rows, row, at, flows);
    ListingIs(rows[..at] + [row] + rows[at..], flows[row.0 := row.1]);
  }

  /** Every table has its listing. */
  lemma {:induction false} ListingExists(flows: map<Flow, Dest>)
    ensures Lists(Listing(flows), flows) && Sorted(Listing(flows))
    decreases |flows.Keys|
  {
    if flows == map[] {
      ListingIs([], flows);
    } else {
      var f :| f in flows;
      var rest := flows - {f};
      assert rest.Keys == flows.Keys - {f};
      ListingExists(rest);
      OneMoreListed(Listing(rest), (f, flows[f]), rest);
      assert rest[f := flows[f]] == flows;
    }
  }

  // What the sorting key means, without keys.

  /** The first octet in which they differ is smaller. */
  ghost predicate OctetsBefore(s: seq<Byte>, t: seq<Byte>) {
    exists i :: 0 <= i < |s| && i < |t| && s[..i] == t[..i] && s[i] < t[i]
  }

  /** Version 4 before version 6, then octet by octet. */
  ghost predicate AddrBefore(a: Addr, b: Addr) {
    match (a, b)
    case (V4(s), V4(t)) => OctetsBefore(s, t)
    case (V6(s), V6(t)) => OctetsBefore(s, t)
    case (V4(_), V6(_)) => true
    case (V6(_), V4(_)) => false
  }

  /** By source, then destination, then gi-address, none first. */
  ghost predicate FlowBefore(a: Flow, b: Flow) {
    || AddrBefore(a.src, b.src)
    || (a.src == b.src && AddrBefore(a.dst, b.dst))
    || (a.src == b.src && a.dst == b.dst && b.gi.Some? && (a.gi.None? || a.gi.value < b.gi.value))
  }

  lemma {:induction false} BelowConcat(x: seq<int>, y: seq<int>, s: seq<int>, t: seq<int>)
    requires |x| == |y|
    ensures Below(x + s, y + t) <==> Below(x, y) || (x == y && Below(s, t))
  {
    if x == [] {
      assert x + s == s && y + t == t;
    } else {
      BelowConcat(x[1..], y[1..], s, t);
      assert (x + s)[1..] == x[1..] + s && (y + t)[1..] == y[1..] + t;
      assert x == [x[0]] + x[1..] && y == [y[0]] + y[1..];
    }
  }

  lemma {:induction false} BelowIsFirstDifference(s: seq<Byte>, t: seq<Byte>)
    requires |s| == |t|
    ensures Below(Ints(s), Ints(t)) <==> OctetsBefore(s, t)
  {
    if s != [] {
      BelowIsFirstDifference(s[1..], t[1..]);
      assert Ints(s)[1..] == Ints(s[1..]) && Ints(t)[1..] == Ints(t[1..]);
      DifferenceMoves(s, t);
    }
  }

  lemma DifferenceMoves(s: seq<Byte>, t: seq<Byte>)
    requires |s| == |t| && s != []
    ensures OctetsBefore(s, t) <==> s[0] < t[0] || (s[0] == t[0] && OctetsBefore(s[1..], t[1..]))
  {
    if s[0] < t[0] {
      assert s[..0] == t[..0];
    }
    if i :| 0 <= i < |s| && i < |t| && s[..i] == t[..i] && s[i] < t[i] {
      if i > 0 {
        assert s[0] == s[..i][0] == t[..i][0] == t[0];
        assert s[1..][..i - 1] == s[..i][1..] && t[1..][..i - 1] == t[..i][1..];
        assert s[1..][i - 1] < t[1..][i - 1];
      }
    }
    if s[0] == t[0] {
      if i :| 0 <= i < |s| - 1 && s[1..][..i] == t[1..][..i] && s[1..][i] < t[1..][i] {
        assert s[..i + 1] == [s[0]] + s[1..][..i] && t[..i + 1] == [t[0]] + t[1..][..i];
        assert s[i + 1] < t[i + 1];
      }
    }
  }

  lemma AddrThen(a: Addr, b: Addr, s: seq<int>, t: seq<int>)
    ensures Below(AddrKey(a) + s, AddrKey(b) + t) <==> AddrBefore(a, b) || (a == b && Below(s, t))
  {
    var x, y := AddrKey(a), AddrKey(b);
    if |x| == |y| {
      BelowConcat(x, y, s, t);
      var m, n := if a.V4? then a.quad else a.sixteen, if b.V4? then b.quad else b.sixteen;
      assert x[1..] == Ints(m) && y[1..] == Ints(n);
      BelowIsFirstDifference(m, n);
      if x == y {
        KeyNamesAddr(a, b);
      }
    } else {
      assert (x + s)[0] == x[0] && (y + t)[0] == y[0];
    }
  }

  lemma KeyOrdersFlows(a: Flow, b: Flow)
    ensures Below(FlowKey(a), FlowKey(b)) <==> FlowBefore(a, b)
  {
    AddrThen(a.src, b.src, AddrKey(a.dst) + GiKey(a.gi), AddrKey(b.dst) + GiKey(b.gi));
    AddrThen(a.dst, b.dst, GiKey(a.gi), GiKey(b.gi));
    GiOrder(a.gi, b.gi);
  }

  lemma GiOrder(a: Option<nat>, b: Option<nat>)
    ensures Below(GiKey(a), GiKey(b)) <==> b.Some? && (a.None? || a.value < b.value)
  {
    var x, y := GiKey(a), GiKey(b);
    if a.Some? && b.Some? {
      assert x[1..] == [a.value] && y[1..] == [b.value];
      assert Below(x[1..], y[1..]) <==> a.value < b.value by {
        assert [a.value][1..] == [] && [b.value][1..] == [];
      }
    } else {
      assert x[1..] == [] || y[1..] == [];
    }
  }

  /** All the packets of a row, of every kind. */
  function PacketsIn(d: Dest): nat {
    d.counts.requests + d.counts.replies + d.counts.fileReads + d.counts.fileSends
  }

  /** The order listings are in: more packets first, and the flow's own order between equals. */
  lemma KeyIsBusiestFirst(a: (Flow, Dest), b: (Flow, Dest))
    ensures Below(RowKey(a), RowKey(b))
       <==> PacketsIn(a.1) > PacketsIn(b.1) || (PacketsIn(a.1) == PacketsIn(b.1) && FlowBefore(a.0, b.0))
  {
    assert RowKey(a)[1..] == FlowKey(a.0) && RowKey(b)[1..] == FlowKey(b.0);
    KeyOrdersFlows(a.0, b.0);
  }
}
