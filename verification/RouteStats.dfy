/** The counters kept per route, and their reading over the history of requests. */
module RouteStats {

  /** An entry of the access log; `clock` is its time of day as it is shown. */
  datatype Entry = Entry(route: string, status: int, duration: nat, bytes: nat, error: string, clock: string)

  /** A request that has ended, with the gauge of active requests it left behind. */
  datatype Ended = Ended(entry: Entry, active: int)

  datatype RouteStat = RouteStat(
    requests: nat, status2xx: nat, status3xx: nat, status4xx: nat, status5xx: nat,
    bytes: nat, totalDur: nat, maxDur: nat, active: int, lastError: string, lastErrAt: string)

  const ZERO := RouteStat(0, 0, 0, 0, 0, 0, 0, 0, 0, "", "")

  /** The class a status is counted under; everything below 300 counts as 2xx. */
  function Class(status: int): int {
    if status >= 500 then 5 else if status >= 400 then 4 else if status >= 300 then 3 else 2
  }

  function Noted(s: RouteStat, x: Ended): RouteStat {
    var e := x.entry;
    RouteStat(
      s.requests + 1,
      s.status2xx + (if Class(e.status) == 2 then 1 else 0),
      s.status3xx + (if Class(e.status) == 3 then 1 else 0),
      s.status4xx + (if Class(e.status) == 4 then 1 else 0),
      s.status5xx + (if Class(e.status) == 5 then 1 else 0),
      s.bytes + e.bytes,
      s.totalDur + e.duration,
      if e.duration > s.maxDur then e.duration else s.maxDur,
      x.active,
      if e.error != "" then e.error else s.lastError,
      if e.error != "" then e.clock else s.lastErrAt)
  }

  function StatFor(m: map<string, RouteStat>, route: string): RouteStat {
    if route in m then m[route] else ZERO
  }

  function Note(m: map<string, RouteStat>, x: Ended): map<string, RouteStat> {
    m[x.entry.route := Noted(StatFor(m, x.entry.route), x)]
  }

  function After(h: seq<Ended>): map<string, RouteStat> {
    if h == [] then map[] else Note(After(h[..|h| - 1]), h[|h| - 1])
  }

  // ---------- Read off the history ----------

  /** The entries of one route, in order. */
  function Of(h: seq<Ended>, route: string): seq<Entry> {
    if h == [] then []
    else
      var e := h[|h| - 1].entry;
      Of(h[..|h| - 1], route) + if e.route == route then [e] else []
  }

  /** The gauge as the last request of the route left it. */
  function Gauge(h: seq<Ended>, route: string): int {
    if h == [] then 0
    else if h[|h| - 1].entry.route == route then h[|h| - 1].active
    else Gauge(h[..|h| - 1], route)
  }

  /** The entries with a status below `limit`. */
  function Below(es: seq<Entry>, limit: int): nat {
    if es == [] then 0 else Below(es[..|es| - 1], limit) + if es[|es| - 1].status < limit then 1 else 0
  }

  function Bytes(es: seq<Entry>): nat {
    if es == [] then 0 else Bytes(es[..|es| - 1]) + es[|es| - 1].bytes
  }

  function Durations(es: seq<Entry>): nat {
    if es == [] then 0 else Durations(es[..|es| - 1]) + es[|es| - 1].duration
  }

  ghost predicate IsLongest(es: seq<Entry>, d: nat) {
    && (forall i | 0 <= i < |es| :: es[i].duration <= d)
    && (d == 0 || exists i :: 0 <= i < |es| && es[i].duration == d)
  }

  ghost predicate IsLatestError(es: seq<Entry>, error: string, clock: string) {
    if error == "" then clock == "" && forall i | 0 <= i < |es| :: es[i].error == ""
    else exists i | 0 <= i < |es| ::
      es[i].error == error && es[i].clock == clock && forall j | i < j < |es| :: es[j].error == ""
  }

  ghost predicate Describes(s: RouteStat, es: seq<Entry>) {
    && s.requests == |es|
    && s.status2xx == Below(es, 300)
    && s.status2xx + s.status3xx == Below(es, 400)
    && s.status2xx + s.status3xx + s.status4xx == Below(es, 500)
    && s.status2xx + s.status3xx + s.status4xx + s.status5xx == |es|
    && s.bytes == Bytes(es) && s.totalDur == Durations(es)
    && IsLongest(es, s.maxDur) && IsLatestError(es, s.lastError, s.lastErrAt)
  }

  lemma LongestStep(es: seq<Entry>, e: Entry, d: nat)
    requires IsLongest(es, d)
    ensures IsLongest(es + [e], if e.duration > d then e.duration else d)
  {
    var longer := es + [e];
    assert longer[|es|] == e;
    if d > 0 && e.duration <= d {
      var i :| 0 <= i < |es| && es[i].duration == d;
      assert longer[i].duration == d;
    }
  }

  lemma LatestErrorStep(es: seq<Entry>, e: Entry, error: string, clock: string)
    requires IsLatestError(es, error, clock)
    ensures if e.error != "" then IsLatestError(es + [e], e.error, e.clock) else IsLatestError(es + [e], error, clock)
  {
    var longer := es + [e];
    assert longer[|es|] == e;
    if error != "" && e.error == "" {
      var i :| 0 <= i < |es| && es[i].error == error && es[i].clock == clock
               && forall j | i < j < |es| :: es[j].error == "";
      assert longer[i] == es[i];
    }
  }

  lemma NotedDescribes(s: RouteStat, es: seq<Entry>, x: Ended)
    requires Describes(s, es)
    ensures Describes(Noted(s, x), es + [x.entry])
  {
    hide IsLongest, IsLatestError;
    var longer, e := es + [x.entry], x.entry;
    assert longer[..|es|] == es && longer[|es|] == e;
    LongestStep(es, e, s.maxDur);
    LatestErrorStep(es, e, s.lastError, s.lastErrAt);
  }

  lemma NoEntries(es: seq<Entry>, limit: int)
    requires es == []
    ensures Below(es, limit) == 0 && Bytes(es) == 0 && Durations(es) == 0
  {
  }

  lemma NoErrors(es: seq<Entry>)
    requires es == []
    ensures IsLongest(es, 0) && IsLatestError(es, "", "")
  {
  }

  lemma NothingDescribed(es: seq<Entry>)
    requires es == []
    ensures Describes(ZERO, es)
  {
    hide IsLongest, IsLatestError, Below, Bytes, Durations;
    NoEntries(es, 300);
    NoEntries(es, 400);
    NoEntries(es, 500);
    NoErrors(es);
  }

  lemma EmptyHistory(route: string)
    ensures After([]) == map[] && Of([], route) == [] && Gauge([], route) == 0
  {
  }

  lemma NoStats(m: map<string, RouteStat>, route: string)
    requires m == map[]
    ensures route !in m && StatFor(m, route) == ZERO && StatFor(m, route).active == 0
  {
  }

  lemma AtFirst(route: string)
    ensures route !in After([]) && Of([], route) == [] && StatFor(After([]), route).active == Gauge([], route)
    ensures Describes(StatFor(After([]), route), Of([], route))
  {
    hide *;
    EmptyHistory(route);
    NoStats(After([]), route);
    NothingDescribed(Of([], route));
  }

  lemma NoteAt(m: map<string, RouteStat>, x: Ended, route: string)
    ensures route in Note(m, x) <==> route in m || route == x.entry.route
    ensures StatFor(Note(m, x), route) ==
            if route == x.entry.route then Noted(StatFor(m, route), x) else StatFor(m, route)
    ensures Noted(StatFor(m, route), x).active == x.active
  {
  }

  lemma OneMore(h: seq<Ended>, route: string)
    requires h != []
    ensures var n := |h| - 1;
            var mine := h[n].entry.route == route;
            && After(h) == Note(After(h[..n]), h[n])
            && Of(h, route) == (if mine then Of(h[..n], route) + [h[n].entry] else Of(h[..n], route))
            && Gauge(h, route) == if mine then h[n].active else Gauge(h[..n], route)
  {
  }

  /** Every route's counters describe exactly its entries, and its gauge is that of
      its last one; a route without entries has no counters. */
  lemma {:induction false} CountersDescribeHistory(h: seq<Ended>, route: string)
    ensures route in After(h) <==> Of(h, route) != []
    ensures Describes(StatFor(After(h), route), Of(h, route))
    ensures StatFor(After(h), route).active == Gauge(h, route)
  {
    hide *;
    if h == [] {
      AtFirst(route);
    } else {
      var n := |h| - 1;
      CountersDescribeHistory(h[..n], route);
      OneMore(h, route);
      NoteAt(After(h[..n]), h[n], route);
      if h[n].entry.route == route {
        NotedDescribes(StatFor(After(h[..n]), route), Of(h[..n], route), h[n]);
      }
    }
  }

  lemma DescribedAddsUp(s: RouteStat, es: seq<Entry>)
    requires Describes(s, es)
    ensures s.requests == s.status2xx + s.status3xx + s.status4xx + s.status5xx
  {
    hide IsLongest, IsLatestError, Below, Bytes, Durations;
  }

  /** The four status classes of a route always add up to its requests. */
  lemma ClassesAddUp(h: seq<Ended>, route: string)
    ensures var s := StatFor(After(h), route);
            s.requests == s.status2xx + s.status3xx + s.status4xx + s.status5xx
  {
    hide *;
    CountersDescribeHistory(h, route);
    DescribedAddsUp(StatFor(After(h), route), Of(h, route));
  }
}
