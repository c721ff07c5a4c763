/** Engine.match: which route handler serves a request. */
module Dispatch {
  import opened Text
  import opened Routes

  /** A compiled route; `regex` numbers its pattern if that compiled. */
  datatype Handler = Handler(cfg: Route, regex: Option<nat>)

  /** A request: its host without the port, its path, and the patterns the path matches. */
  datatype Request = Request(host: string, path: string, hits: set<nat>)

  function LowerChar(c: char): char {
    if 'A' <= c <= 'Z' then (c as int + 32) as char else c
  }

  function Lower(s: string): (r: string)
    ensures |r| == |s| && forall i | 0 <= i < |s| :: r[i] == LowerChar(s[i])
  {
    if s == "" then "" else [LowerChar(s[0])] + Lower(s[1..])
  }

  predicate HasSuffix(s: string, t: string) {
    |t| <= |s| && s[|s| - |t|..] == t
  }

  predicate HostMatch(pattern: string, host: string) {
    if pattern == "" then true
    else
      var h, p := Lower(host), Lower(pattern);
      if "*." <= p then HasSuffix(h, p[1..]) && |h| > |p[1..]| else h == p
  }

  /** The same letters, capital or not; anything else the same. */
  predicate SameIgnoringCase(a: string, b: string) {
    && |a| == |b|
    && forall i | 0 <= i < |a| ::
         || a[i] == b[i]
         || ('A' <= a[i] <= 'Z' && b[i] as int == a[i] as int + 32)
         || ('A' <= b[i] <= 'Z' && a[i] as int == b[i] as int + 32)
  }

  lemma LowerCharsExactly(c: char, d: char)
    ensures LowerChar(c) == LowerChar(d) <==>
            || c == d
            || ('A' <= c <= 'Z' && d as int == c as int + 32)
            || ('A' <= d <= 'Z' && c as int == d as int + 32)
    ensures LowerChar(c) == '*' <==> c == '*'
    ensures LowerChar(c) == '.' <==> c == '.'
  {
  }

  lemma LowerExactly(a: string, b: string)
    ensures Lower(a) == Lower(b) <==> SameIgnoringCase(a, b)
  {
    hide Lower, LowerChar;
    forall i | 0 <= i < |a| && i < |b|
      ensures LowerChar(a[i]) == LowerChar(b[i]) <==>
              || a[i] == b[i]
              || ('A' <= a[i] <= 'Z' && b[i] as int == a[i] as int + 32)
              || ('A' <= b[i] <= 'Z' && a[i] as int == b[i] as int + 32)
    {
      LowerCharsExactly(a[i], b[i]);
    }
    if Lower(a) == Lower(b) {
      forall i | 0 <= i < |a|
        ensures LowerChar(a[i]) == LowerChar(b[i])
      {
        assert Lower(a)[i] == Lower(b)[i];
      }
    }
  }

  /** What a configured host stands for: any host, the proper subdomains of a domain,
      or one host. */
  predicate HostFits(pattern: string, host: string) {
    if pattern == "" then true
    else if "*." <= pattern then
      var tail := |pattern| - 1;
      |host| > tail && SameIgnoringCase(host[|host| - tail..], pattern[1..])
    else SameIgnoringCase(host, pattern)
  }

  lemma HostMatchExactly(pattern: string, host: string)
    ensures HostMatch(pattern, host) <==> HostFits(pattern, host)
  {
    hide SameIgnoringCase, LowerChar, Lower;
    var h, p := Lower(host), Lower(pattern);
    if |pattern| >= 2 {
      LowerCharsExactly(pattern[0], '*');
      LowerCharsExactly(pattern[1], '.');
      StarIsLower();
      assert "*." <= p <==> "*." <= pattern;
      var tail := |pattern| - 1;
      LowerTail(pattern, 1);
      if |host| >= tail {
        LowerTail(host, |host| - tail);
        LowerExactly(host[|host| - tail..], pattern[1..]);
      }
    }
    LowerExactly(host, pattern);
  }

  lemma LowerTail(s: string, k: nat)
    requires k <= |s|
    ensures Lower(s[k..]) == Lower(s)[k..]
  {
    hide Lower, LowerChar;
  }

  predicate Matches(h: Handler, q: Request) {
    && h.cfg.enabled
    && HostMatch(h.cfg.host, q.host)
    && if h.cfg.kind == "exact" then q.path == h.cfg.path
       else if h.cfg.kind == "regex" then h.regex.Some? && h.regex.value in q.hits
       else h.cfg.path == "/" || h.cfg.path <= q.path
  }

  const EXACT := 0x4000_0000

  function Score(h: Handler): nat {
    if h.cfg.kind == "exact" then EXACT
    else if h.cfg.kind == "regex" then 0
    else if h.cfg.path == "/" then 1
    else |h.cfg.path|
  }

  /** Handler `i` is the earliest of the greatest score among those of the first
      `n` that match. */
  ghost predicate IsBest(routes: seq<Handler>, n: nat, q: Request, i: nat)
    requires n <= |routes|
  {
    && i < n && Matches(routes[i], q)
    && (forall j | 0 <= j < n && Matches(routes[j], q) :: Score(routes[j]) <= Score(routes[i]))
    && (forall j | 0 <= j < i && Matches(routes[j], q) :: Score(routes[j]) < Score(routes[i]))
  }

  ghost predicate IsChosen(routes: seq<Handler>, q: Request, i: nat) {
    IsBest(routes, |routes|, q, i)
  }

  /** When a route serves a request: it is enabled, its host fits, and the path is
      its own, or is found by its pattern, or begins with its path. */
  lemma MatchesExactly(h: Handler, q: Request)
    ensures Matches(h, q) <==>
            && h.cfg.enabled && HostFits(h.cfg.host, q.host)
            && (h.cfg.kind == "exact" ==> q.path == h.cfg.path)
            && (h.cfg.kind == "regex" ==> h.regex.Some? && h.regex.value in q.hits)
            && (h.cfg.kind != "exact" && h.cfg.kind != "regex" ==> h.cfg.path == "/" || h.cfg.path <= q.path)
  {
    hide HostMatch, HostFits;
    HostMatchExactly(h.cfg.host, q.host);
  }

  method Match(routes: seq<Handler>, q: Request) returns (best: Option<nat>)
    ensures best.None? <==> forall j | 0 <= j < |routes| :: !Matches(routes[j], q)
    ensures best.Some? ==> IsChosen(routes, q, best.value)
    ensures best.Some? ==>
              var r := routes[best.value];
              && r.cfg.enabled && HostFits(r.cfg.host, q.host)
              && (r.cfg.kind == "exact" ==> q.path == r.cfg.path)
              && (r.cfg.kind == "regex" ==> r.regex.Some? && r.regex.value in q.hits)
              && (r.cfg.kind != "exact" && r.cfg.kind != "regex" ==> r.cfg.path == "/" || r.cfg.path <= q.path)
    ensures best.None? ==> forall r | r in routes && r.cfg.enabled && HostFits(r.cfg.host, q.host) ::
              && (r.cfg.kind == "exact" ==> q.path != r.cfg.path)
              && (r.cfg.kind == "regex" ==> r.regex.None? || r.regex.value !in q.hits)
              && (r.cfg.kind != "exact" && r.cfg.kind != "regex" ==> r.cfg.path != "/" && !(r.cfg.path <= q.path))
  {
    hide Matches, HostFits;
    best := None;
    var bestScore := -1;
    for k := 0 to |routes|
      invariant best.None? <==> bestScore == -1
      invariant best.None? ==> forall j | 0 <= j < k :: !Matches(routes[j], q)
      invariant best.Some? ==> IsBest(routes, k, q, best.value) && bestScore == Score(routes[best.value])
    {
      var h := routes[k];
      if !Matches(h, q) {
        continue;
      }
      MatchesExactly(h, q);
      var score := 0;
      if h.cfg.kind == "exact" {
        if q.path == h.cfg.path {
          score := EXACT;
        } else {
          continue;
        }
      } else if h.cfg.kind == "regex" {
        score := 0;
      } else if h.cfg.path == "/" {
        score := 1;
      } else {
        score := |h.cfg.path|;
      }
      if score > bestScore {
        best, bestScore := Some(k), score;
      }
    }
    if best.Some? {
      MatchesExactly(routes[best.value], q);
    } else {
      forall r | r in routes
        ensures !Matches(r, q)
      {
      }
      NothingFits(routes, q);
    }
  }

  lemma NothingFits(routes: seq<Handler>, q: Request)
    requires forall r | r in routes :: !Matches(r, q)
    ensures forall r | r in routes && r.cfg.enabled && HostFits(r.cfg.host, q.host) ::
              && (r.cfg.kind == "exact" ==> q.path != r.cfg.path)
              && (r.cfg.kind == "regex" ==> r.regex.None? || r.regex.value !in q.hits)
              && (r.cfg.kind != "exact" && r.cfg.kind != "regex" ==> r.cfg.path != "/" && !(r.cfg.path <= q.path))
  {
    hide Matches, HostFits;
    forall r | r in routes && r.cfg.enabled && HostFits(r.cfg.host, q.host)
      ensures (r.cfg.kind == "exact" ==> q.path != r.cfg.path)
      ensures (r.cfg.kind == "regex" ==> r.regex.None? || r.regex.value !in q.hits)
      ensures (r.cfg.kind != "exact" && r.cfg.kind != "regex" ==> r.cfg.path != "/" && !(r.cfg.path <= q.path))
    {
      MatchesExactly(r, q);
    }
  }

  predicate Exact(h: Handler) {
    h.cfg.kind == "exact"
  }

  predicate Regex(h: Handler) {
    h.cfg.kind == "regex"
  }

  /** The most specific route wins, as long as paths are shorter than 2^30: an
      exact match beats everything, the longest prefix beats shorter ones, and a
      pattern is served only when no prefix route with a path matches. */
  lemma MostSpecificWins(routes: seq<Handler>, q: Request, i: nat, j: nat)
    requires IsChosen(routes, q, i) && j < |routes| && Matches(routes[j], q)
    requires forall h | h in routes :: |h.cfg.path| < EXACT
    ensures Exact(routes[j]) ==> Exact(routes[i])
    ensures Exact(routes[i]) || Regex(routes[j]) || |routes[j].cfg.path| <= |routes[i].cfg.path|
    ensures Regex(routes[i]) ==> Regex(routes[j]) || routes[j].cfg.path == ""
  {
    assert routes[j] in routes && routes[i] in routes;
    assert Score(routes[j]) <= Score(routes[i]);
  }

  /** An earlier match is passed over only for a more specific one. */
  lemma EarlierWinsTies(routes: seq<Handler>, q: Request, i: nat, j: nat)
    requires IsChosen(routes, q, i) && j < i && Matches(routes[j], q)
    requires forall h | h in routes :: |h.cfg.path| < EXACT
    ensures !Exact(routes[j]) && (Regex(routes[j]) ==> !Regex(routes[i]))
    ensures !Exact(routes[i]) && !Regex(routes[i]) && !Regex(routes[j]) ==> |routes[j].cfg.path| < |routes[i].cfg.path|
    ensures Regex(routes[i]) ==> Regex(routes[j])
  {
    assert routes[i] in routes && Score(routes[j]) < Score(routes[i]);
  }

  function Configs(routes: seq<Handler>): (r: seq<Route>)
    ensures |r| == |routes| && forall i | 0 <= i < |r| :: r[i] == routes[i].cfg
  {
    if routes == [] then [] else [routes[0].cfg] + Configs(routes[1..])
  }

  /** Dispatch over a table in order of priority, as sorting leaves every table: no
      matching route that is as specific as the chosen one has a higher priority;
      and none precedes it at all, if the table is free of clashes. */
  lemma PriorityBreaksTies(routes: seq<Handler>, q: Request, i: nat, j: nat)
    requires IsChosen(routes, q, i) && ByPriority(Configs(routes))
    requires j < |routes| && j != i && Matches(routes[j], q) && Score(routes[j]) == Score(routes[i])
    ensures routes[j].cfg.priority <= routes[i].cfg.priority
    ensures Ordered(Configs(routes)) ==> !Precedes(RankOf(routes[j].cfg), RankOf(routes[i].cfg))
  {
    assert i < j;
    ByPriorityMeaning(Configs(routes), i, j);
    if Ordered(Configs(routes)) {
      OrderedMeaning(Configs(routes), i, j);
    }
  }

  /** Route `j` has the greatest priority of all that match. */
  ghost predicate HasTopPriority(routes: seq<Handler>, q: Request, j: nat) {
    && j < |routes| && Matches(routes[j], q)
    && forall k | 0 <= k < |routes| && Matches(routes[k], q) :: routes[k].cfg.priority <= routes[j].cfg.priority
  }

  /** It has the greatest score. */
  ghost predicate HasTopScore(routes: seq<Handler>, q: Request, j: nat) {
    && j < |routes| && Matches(routes[j], q)
    && forall k | 0 <= k < |routes| && Matches(routes[k], q) :: Score(routes[k]) <= Score(routes[j])
  }

  /** High priority wins exactly when some matching route of the highest priority is
      also among the most specific ones. */
  lemma PriorityWinsExactly(routes: seq<Handler>, q: Request, i: nat)
    requires IsChosen(routes, q, i) && ByPriority(Configs(routes))
    ensures HasTopPriority(routes, q, i) <==> exists j :: HasTopPriority(routes, q, j) && HasTopScore(routes, q, j)
  {
    assert HasTopScore(routes, q, i);
    if j :| HasTopPriority(routes, q, j) && HasTopScore(routes, q, j) {
      assert i <= j;
      if i < j {
        ByPriorityMeaning(Configs(routes), i, j);
      }
    }
  }

  function PrefixRoute(path: string, priority: int): Handler {
    Handler(Route("rt", true, "", path, "prefix", "", "", priority, [], "round_robin",
                  Health(false, 10, 3, 3, 2), Some(0), 0), None)
  }

  /** So a catch-all route of priority 10 loses to `/api` of priority 0. */
  lemma PriorityLoses()
    ensures var routes, q := [PrefixRoute("/", 10), PrefixRoute("/api", 0)], Request("a", "/api/x", {});
            && Sort(Configs(routes)) == Configs(routes)
            && IsChosen(routes, q, 1) && !HasTopPriority(routes, q, 1) && HasTopPriority(routes, q, 0)
  {
    var routes, q := [PrefixRoute("/", 10), PrefixRoute("/api", 0)], Request("a", "/api/x", {});
    var a, b := routes[0].cfg, routes[1].cfg;
    assert Configs(routes) == [a, b];
    SortPair(a, b);
    assert "/api" <= "/api/x";
    assert Matches(routes[0], q) && Matches(routes[1], q);
  }

  /** A wildcard stands for one label or more: it matches exactly the proper
      subdomains of its domain, ignoring case, and so never the domain itself. */
  lemma WildcardMatchesExactly(domain: string, host: string)
    ensures HostMatch("*." + domain, host) <==> exists sub | sub != "" :: Lower(host) == sub + ("." + Lower(domain))
    ensures !HostMatch("*." + domain, domain)
  {
    hide Lower, HasSuffix;
    WildcardLowered(domain);
    SuffixExactly(Lower(host), "." + Lower(domain));
    SuffixExactly(Lower(domain), "." + Lower(domain));
  }

  lemma SuffixExactly(s: string, t: string)
    ensures HasSuffix(s, t) && |s| > |t| <==> exists front | front != "" :: s == front + t
  {
    if HasSuffix(s, t) && |s| > |t| {
      var front := s[..|s| - |t|];
      assert front != "" && s == front + t;
    }
    if front :| front != "" && s == front + t {
      assert s[|s| - |t|..] == t;
    }
  }

  lemma WildcardLowered(domain: string)
    ensures var p := Lower("*." + domain); "*." <= p && p[1..] == "." + Lower(domain)
  {
    hide LowerChar;
    LowerOfJoin("*", domain);
    StarIsLower();
    assert "*" + "." + domain == "*." + domain;
    assert Lower("*") == "*";
  }

  lemma StarIsLower()
    ensures LowerChar('*') == '*' && LowerChar('.') == '.'
  {
  }

  lemma LowerOfJoin(a: string, b: string)
    ensures Lower(a + "." + b) == Lower(a) + "." + Lower(b)
  {
    hide Lower, LowerChar;
    StarIsLower();
  }
}
