/** Config.normalize: defaults filled in place, then the routes sorted in place. */
module Normalize {
  import opened Text
  import opened Routes

  function Or(s: string, fallback: string): string {
    if s == "" then fallback else s
  }

  function Positive(n: int, fallback: int): int {
    if n <= 0 then fallback else n
  }

  // ---------- Routes ----------

  function Weight(w: int): int {
    Positive(w, 1)
  }

  function WeightsOf(ws: seq<int>): (r: seq<int>)
    ensures |r| == |ws| && forall i | 0 <= i < |ws| :: r[i] == Weight(ws[i])
  {
    if ws == [] then [] else WeightsOf(ws[..|ws| - 1]) + [Weight(ws[|ws| - 1])]
  }

  function FilledHealth(h: Health): Health {
    h.(interval := Positive(h.interval, 10), timeout := Positive(h.timeout, 3),
       fails := Positive(h.fails, 3), passes := Positive(h.passes, 2))
  }

  /** One route with its defaults; `id` is a new identifier, used if it has none. */
  function Filled(r: Route, id: string, now: int): Route {
    r.(id := Or(r.id, id),
       kind := Or(r.kind, "prefix"),
       scheme := if r.mode == "domain_in_path" && r.scheme !in {"http", "https"} then "http" else r.scheme,
       lb := Or(r.lb, "round_robin"),
       path := Or(r.path, "/"),
       health := FilledHealth(r.health),
       weights := WeightsOf(r.weights),
       createdAt := if r.createdAt.None? then Some(now) else r.createdAt,
       updatedAt := now)
  }

  function FilledAll(rs: seq<Route>, ids: seq<string>, now: int): (t: seq<Route>)
    requires |ids| == |rs|
    ensures |t| == |rs| && forall i | 0 <= i < |rs| :: t[i] == Filled(rs[i], ids[i], now)
  {
    if rs == [] then []
    else FilledAll(rs[..|rs| - 1], ids[..|rs| - 1], now) + [Filled(rs[|rs| - 1], ids[|rs| - 1], now)]
  }

  function Normalized(rs: seq<Route>, ids: seq<string>, now: int): seq<Route>
    requires |ids| == |rs|
  {
    Sort(FilledAll(rs, ids, now))
  }

  /** Only the time of the last update differs. */
  function Stamped(r: Route, now: int): Route {
    r.(updatedAt := now)
  }

  function StampedAll(rs: seq<Route>, now: int): (t: seq<Route>)
    ensures |t| == |rs| && forall i | 0 <= i < |rs| :: t[i] == Stamped(rs[i], now)
  {
    if rs == [] then [] else StampedAll(rs[..|rs| - 1], now) + [Stamped(rs[|rs| - 1], now)]
  }

  ghost predicate IsFilled(r: Route) {
    forall id, now :: Filled(r, id, now) == Stamped(r, now)
  }

  /** What later stages rely on: weights and thresholds are positive, so active and
      passive checks agree, and paths are not empty. */
  lemma FilledIsUsable(r: Route, id: string, now: int)
    requires id != ""
    ensures var f := Filled(r, id, now);
            && f.id != "" && f.path != "" && f.kind != "" && f.lb != ""
            && f.health.fails > 0 && f.health.passes > 0 && f.health.interval > 0 && f.health.timeout > 0
            && (forall i | 0 <= i < |f.weights| :: f.weights[i] > 0)
            && (f.mode == "domain_in_path" ==> f.scheme in {"http", "https"})
  {
  }

  /** What is set is kept, and what is missing gets its default. */
  lemma FilledExactly(r: Route, id: string, now: int)
    ensures var f := Filled(r, id, now);
            && f.id == (if r.id != "" then r.id else id)
            && (r.kind != "" ==> f.kind == r.kind) && (r.kind == "" ==> f.kind == "prefix")
            && (r.lb != "" ==> f.lb == r.lb) && (r.lb == "" ==> f.lb == "round_robin")
            && (r.path != "" ==> f.path == r.path) && (r.path == "" ==> f.path == "/")
            && (r.mode == "domain_in_path" && r.scheme != "http" && r.scheme != "https" ==> f.scheme == "http")
            && (r.mode != "domain_in_path" || r.scheme == "http" || r.scheme == "https" ==> f.scheme == r.scheme)
            && f.enabled == r.enabled && f.host == r.host && f.mode == r.mode && f.priority == r.priority
            && f.createdAt == (if r.createdAt.Some? then r.createdAt else Some(now)) && f.updatedAt == now
  {
  }

  lemma FilledHealthExactly(h: Health)
    ensures var f := FilledHealth(h);
            && f.enabled == h.enabled
            && (h.interval > 0 ==> f.interval == h.interval) && (h.interval <= 0 ==> f.interval == 10)
            && (h.timeout > 0 ==> f.timeout == h.timeout) && (h.timeout <= 0 ==> f.timeout == 3)
            && (h.fails > 0 ==> f.fails == h.fails) && (h.fails <= 0 ==> f.fails == 3)
            && (h.passes > 0 ==> f.passes == h.passes) && (h.passes <= 0 ==> f.passes == 2)
  {
  }

  lemma FilledPartsExactly(r: Route, id: string, now: int)
    ensures var f := Filled(r, id, now);
            && f.health == FilledHealth(r.health) && |f.weights| == |r.weights|
            && forall i | 0 <= i < |r.weights| :: f.weights[i] == if r.weights[i] > 0 then r.weights[i] else 1
  {
  }

  predicate AllFilled(s: seq<Route>) {
    s == [] || (AllFilled(s[..|s| - 1]) && FixedPoint(s[|s| - 1]))
  }

  /** A finite test for IsFilled. */
  predicate FixedPoint(r: Route) {
    && r.id != "" && r.createdAt.Some? && Filled(r, "x", r.updatedAt) == r
  }

  lemma FixedPointIsFilled(r: Route)
    requires FixedPoint(r)
    ensures IsFilled(r)
  {
  }

  lemma FilledFixedPoint(r: Route, id: string, now: int)
    requires id != ""
    ensures FixedPoint(Filled(r, id, now))
  {
    var f := Filled(r, id, now);
    assert WeightsOf(f.weights) == f.weights;
  }

  lemma {:induction false} InsertAllFilled(p: seq<Route>, x: Route)
    requires AllFilled(p) && FixedPoint(x)
    ensures AllFilled(Insert(p, x))
  {
    hide FixedPoint, Less;
    if p == [] || !Less(x, p[|p| - 1]) {
      assert (p + [x])[..|p|] == p;
    } else {
      var n := |p| - 1;
      InsertAllFilled(p[..n], x);
      assert Insert(p, x)[..n + 1] == Insert(p[..n], x);
    }
  }

  lemma {:induction false} SortAllFilled(s: seq<Route>)
    requires AllFilled(s)
    ensures AllFilled(Sort(s))
  {
    hide FixedPoint, Insert;
    if s == [] {
    } else {
      var n := |s| - 1;
      SortAllFilled(s[..n]);
      InsertAllFilled(Sort(s[..n]), s[n]);
    }
  }

  lemma {:induction false} FilledAllFilled(rs: seq<Route>, ids: seq<string>, now: int)
    requires |ids| == |rs| && forall i | 0 <= i < |ids| :: ids[i] != ""
    ensures AllFilled(FilledAll(rs, ids, now))
  {
    hide FixedPoint, Filled;
    if rs == [] {
    } else {
      var n := |rs| - 1;
      FilledAllFilled(rs[..n], ids[..n], now);
      FilledFixedPoint(rs[n], ids[n], now);
      assert FilledAll(rs, ids, now)[..n] == FilledAll(rs[..n], ids[..n], now);
    }
  }

  lemma {:induction false} RefillingStamps(s: seq<Route>, ids: seq<string>, now: int)
    requires |ids| == |s| && AllFilled(s)
    ensures FilledAll(s, ids, now) == StampedAll(s, now)
  {
    hide FixedPoint, Filled;
    if s == [] {
    } else {
      var n := |s| - 1;
      RefillingStamps(s[..n], ids[..n], now);
      FixedPointIsFilled(s[n]);
    }
  }

  lemma StampKeepsLess(a: Route, b: Route, now: int)
    ensures Less(Stamped(a, now), Stamped(b, now)) == Less(a, b)
  {
  }

  lemma StampedFront(s: seq<Route>, now: int)
    requires s != []
    ensures StampedAll(s, now)[..|s| - 1] == StampedAll(s[..|s| - 1], now)
  {
    hide Stamped;
  }

  lemma {:induction false} StampKeepsStaying(s: seq<Route>, now: int)
    ensures Stays(StampedAll(s, now)) <==> Stays(s)
  {
    hide Less, Stamped, Stays;
    StaysStep(s);
    StaysStep(StampedAll(s, now));
    if |s| <= 1 {
    } else {
      var n := |s| - 1;
      StampKeepsStaying(s[..n], now);
      StampKeepsLess(s[n], s[n - 1], now);
      StampedFront(s, now);
    }
  }

  /** Normalising a table again changes nothing but the update times exactly when no
      two of its routes clash. */
  lemma RenormalizingOnlyStampsExactly(rs: seq<Route>, ids: seq<string>, now: int, ids2: seq<string>, now2: int)
    requires |ids| == |ids2| == |rs| && forall i | 0 <= i < |ids| :: ids[i] != ""
    ensures Normalized(Normalized(rs, ids, now), ids2, now2) == StampedAll(Normalized(rs, ids, now), now2)
       <==> Clean(FilledAll(rs, ids, now))
  {
    hide FilledAll, StampedAll, Sort, AllFilled, Clean, Stays;
    var f := FilledAll(rs, ids, now);
    FilledAllFilled(rs, ids, now);
    SortAllFilled(f);
    RefillingStamps(Sort(f), ids2, now2);
    SortedStaysExactly(StampedAll(Sort(f), now2));
    StampKeepsStaying(Sort(f), now2);
    SortedStaysExactly(Sort(f));
    ResortingIsIdleExactly(f);
  }

  // ---------- Settings and proxies ----------

  datatype Settings = Settings(
    addr: string, adminPath: string, username: string, passHash: string, secret: string, sessionTTL: int,
    logLevel: string, logBuffer: int, maxIdle: int, dialTimeout: int, keepAlive: int, httpPort: int)

  datatype Proxy = Proxy(id: string, kind: string, timeout: int)

  function Trim(s: string): string {
    TrimLeftSlash(TrimRightSlash(s))
  }

  function FilledSettings(c: Settings, hash: string, secret: string): Settings {
    Settings(Or(c.addr, ":8080"), "/" + Trim(Or(c.adminPath, "/__admin")), Or(c.username, "admin"),
             Or(c.passHash, hash), Or(c.secret, secret), Positive(c.sessionTTL, 12),
             Or(c.logLevel, "info"), Positive(c.logBuffer, 500), Positive(c.maxIdle, 200),
             Positive(c.dialTimeout, 10), Positive(c.keepAlive, 30), if c.httpPort == 0 then 80 else c.httpPort)
  }

  function FilledProxy(p: Proxy, id: string): Proxy {
    Proxy(Or(p.id, id), Or(p.kind, "socks5"), Positive(p.timeout, 10))
  }

  lemma SettingsFilledExactly(c: Settings, hash: string, secret: string)
    ensures var f := FilledSettings(c, hash, secret);
            && f.addr == (if c.addr != "" then c.addr else ":8080")
            && f.username == (if c.username != "" then c.username else "admin")
            && f.passHash == (if c.passHash != "" then c.passHash else hash)
            && f.secret == (if c.secret != "" then c.secret else secret)
            && f.sessionTTL == (if c.sessionTTL > 0 then c.sessionTTL else 12)
            && f.logLevel == (if c.logLevel != "" then c.logLevel else "info")
            && f.logBuffer == (if c.logBuffer > 0 then c.logBuffer else 500)
            && f.maxIdle == (if c.maxIdle > 0 then c.maxIdle else 200)
            && f.dialTimeout == (if c.dialTimeout > 0 then c.dialTimeout else 10)
            && f.keepAlive == (if c.keepAlive > 0 then c.keepAlive else 30)
            && f.httpPort == (if c.httpPort != 0 then c.httpPort else 80)
  {
    hide Trim;
  }

  /** The admin path is one slash and what is configured, or `/__admin`, without the
      slashes at its ends. */
  lemma AdminPathExactly(c: Settings, hash: string, secret: string) returns (i: nat, j: nat)
    ensures var s := if c.adminPath != "" then c.adminPath else "/__admin";
            && i <= j <= |s| && FilledSettings(c, hash, secret).adminPath == "/" + s[i..j]
            && (forall k | 0 <= k < i || j <= k < |s| :: s[k] == '/')
            && (i < j ==> s[i] != '/' && s[j - 1] != '/')
  {
    i, j := TrimExactly(if c.adminPath != "" then c.adminPath else "/__admin");
  }

  lemma TrimExactly(s: string) returns (i: nat, j: nat)
    ensures i <= j <= |s| && Trim(s) == s[i..j]
    ensures forall k | 0 <= k < i || j <= k < |s| :: s[k] == '/'
    ensures i < j ==> s[i] != '/' && s[j - 1] != '/'
  {
    hide TrimLeftSlash, TrimRightSlash;
    var u, t := TrimRightSlash(s), Trim(s);
    i, j := |u| - |t|, |u|;
    assert u == s[..j];
    assert t == u[i..] == s[i..j];
    TrimmedEnds(s);
  }

  lemma ProxyFilledExactly(p: Proxy, id: string)
    ensures var f := FilledProxy(p, id);
            && f.id == (if p.id != "" then p.id else id)
            && f.kind == (if p.kind != "" then p.kind else "socks5")
            && f.timeout == (if p.timeout > 0 then p.timeout else 10)
  {
  }

  lemma TrimmedEnds(s: string)
    ensures var t := Trim(s); t == "" || (t[0] != '/' && t[|t| - 1] != '/')
  {
    hide TrimLeftSlash, TrimRightSlash;
    var u, t := TrimRightSlash(s), Trim(s);
    if t != "" {
      assert t[|t| - 1] == u[|u| - 1];
    }
  }

  lemma TrimAgain(s: string)
    ensures Trim("/" + Trim(s)) == Trim(s)
  {
    hide Trim;
    TrimmedEnds(s);
    TrimSlashed(Trim(s));
  }

  lemma TrimSlashed(t: string)
    requires t == "" || (t[0] != '/' && t[|t| - 1] != '/')
    ensures Trim("/" + t) == t
  {
    var v := "/" + t;
    if t == "" {
      assert v[..0] == "" && TrimRightSlash(v) == TrimRightSlash("");
    } else {
      assert TrimRightSlash(v) == v && v[1..] == t;
      assert TrimLeftSlash(v) == TrimLeftSlash(t);
    }
  }

  lemma RefillingSettings(c: Settings, hash: string, secret: string, hash2: string, secret2: string)
    requires hash != "" && secret != ""
    ensures var f := FilledSettings(c, hash, secret); FilledSettings(f, hash2, secret2) == f
  {
    hide Trim, TrimLeftSlash, TrimRightSlash;
    TrimAgain(Or(c.adminPath, "/__admin"));
  }

  lemma RefillingProxy(p: Proxy, id: string, id2: string)
    requires id != ""
    ensures FilledProxy(FilledProxy(p, id), id2) == FilledProxy(p, id)
  {
  }

  // ---------- In place ----------

  /** `x` on its way left through `p`, with p[j..] already behind it. */
  function Gap(p: seq<Route>, x: Route, j: nat): (r: seq<Route>)
    requires j <= |p|
    ensures |r| == |p| + 1 && r[j] == x && (j > 0 ==> r[j - 1] == p[j - 1])
  {
    p[..j] + [x] + p[j..]
  }

  lemma GapMoves(p: seq<Route>, x: Route, j: nat)
    requires 0 < j <= |p|
    ensures Gap(p, x, j)[j := p[j - 1]][j - 1 := x] == Gap(p, x, j - 1)
  {
  }

  lemma InsertPasses(p: seq<Route>, x: Route, j: nat)
    requires 0 < j <= |p| && Less(x, p[j - 1])
    ensures Insert(p[..j], x) + p[j..] == Insert(p[..j - 1], x) + p[j - 1..]
  {
    hide Less;
    assert p[..j][..j - 1] == p[..j - 1];
    assert p[j - 1..] == [p[j - 1]] + p[j..];
  }

  lemma InsertStops(p: seq<Route>, x: Route, j: nat)
    requires j <= |p| && (j > 0 ==> !Less(x, p[j - 1]))
    ensures Insert(p[..j], x) + p[j..] == Gap(p, x, j)
  {
    hide Less;
  }

  /** sort.SliceStable as it works on up to twenty routes: insertion sort. */
  method SortInPlace(a: array<Route>)
    modifies a
    ensures a[..] == Sort(old(a[..]))
  {
    hide Insert, Less;
    ghost var was := a[..];
    for i := 0 to a.Length
      invariant a[..i] == Sort(was[..i]) && a[i..] == was[i..]
    {
      assert was[..i + 1][..i] == was[..i] && was[..i + 1][i] == was[i];
      assert a[i] == a[i..][0] == was[i..][0] == was[i];
      ghost var tail := a[i + 1..];
      assert tail == a[i..][1..] == was[i..][1..] == was[i + 1..];
      InsertAt(a, i);
    }
    assert a[..a.Length] == a[..] && was[..a.Length] == was;
  }

  method InsertAt(a: array<Route>, i: nat)
    requires i < a.Length
    modifies a
    ensures a[..i + 1] == Insert(old(a[..i]), old(a[i])) && a[i + 1..] == old(a[i + 1..])
  {
    hide Insert, Less, Gap;
    ghost var p, x := a[..i], a[i];
    var j := i;
    assert a[..i + 1] == Gap(p, x, i) by {
      hide *;
      WholeGap(p, x);
      assert a[..i + 1] == a[..i] + [a[i]];
    }
    assert p[..i] == p && p[i..] == [];
    while j > 0 && Less(a[j], a[j - 1])
      invariant 0 <= j <= i
      invariant a[..i + 1] == Gap(p, x, j)
      invariant a[i + 1..] == old(a[i + 1..])
      invariant Insert(p, x) == Insert(p[..j], x) + p[j..]
    {
      ghost var before := a[..i + 1];
      assert a[j] == before[j] == x && a[j - 1] == before[j - 1] == p[j - 1];
      InsertPasses(p, x, j);
      GapMoves(p, x, j);
      a[j], a[j - 1] := a[j - 1], a[j];
      assert a[..i + 1] == before[j := p[j - 1]][j - 1 := x];
      j := j - 1;
    }
    assert a[j] == a[..i + 1][j] == x;
    assert j > 0 ==> a[j - 1] == a[..i + 1][j - 1] == p[j - 1];
    InsertStops(p, x, j);
  }

  lemma WholeGap(p: seq<Route>, x: Route)
    ensures Gap(p, x, |p|) == p + [x]
  {
  }

  class Config {
    var settings: Settings
    const routes: array<Route>
    const proxies: array<Proxy>

    constructor (settings: Settings, routes: array<Route>, proxies: array<Proxy>)
      ensures this.settings == settings && this.routes == routes && this.proxies == proxies
    {
      this.settings, this.routes, this.proxies := settings, routes, proxies;
    }

    method FillRoutes(ids: seq<string>, now: int)
      requires |ids| == routes.Length
      modifies routes
      ensures routes[..] == FilledAll(old(routes[..]), ids, now)
    {
      hide Filled;
      for i := 0 to routes.Length
        invariant forall k | 0 <= k < i :: routes[k] == Filled(old(routes[k]), ids[k], now)
        invariant forall k | i <= k < routes.Length :: routes[k] == old(routes[k])
      {
        routes[i] := Fill(routes[i], ids[i], now);
      }
    }

    method Fill(r: Route, id: string, now: int) returns (f: Route)
      ensures f == Filled(r, id, now)
    {
      hide WeightsOf;
      var ident, kind, scheme, lb, path := r.id, r.kind, r.scheme, r.lb, r.path;
      if ident == "" { ident := id; }
      if kind == "" { kind := "prefix"; }
      if r.mode == "domain_in_path" {
        if scheme != "http" && scheme != "https" { scheme := "http"; }
      }
      if lb == "" { lb := "round_robin"; }
      if path == "" { path := "/"; }
      assert ident == Or(r.id, id) && kind == Or(r.kind, "prefix") && lb == Or(r.lb, "round_robin");
      assert path == Or(r.path, "/");
      assert scheme == if r.mode == "domain_in_path" && r.scheme !in {"http", "https"} then "http" else r.scheme;
      var health := FillHealth(r.health);
      var weights := FillWeights(r.weights);
      var createdAt := r.createdAt;
      if createdAt.None? { createdAt := Some(now); }
      f := r.(id := ident, kind := kind, scheme := scheme, lb := lb, path := path, health := health,
              weights := weights, createdAt := createdAt, updatedAt := now);
    }

    method FillHealth(h: Health) returns (f: Health)
      ensures f == FilledHealth(h)
    {
      f := h;
      if f.interval <= 0 { f := f.(interval := 10); }
      if f.timeout <= 0 { f := f.(timeout := 3); }
      if f.fails <= 0 { f := f.(fails := 3); }
      if f.passes <= 0 { f := f.(passes := 2); }
    }

    method FillWeights(ws: seq<int>) returns (r: seq<int>)
      ensures r == WeightsOf(ws)
    {
      r := ws;
      for j := 0 to |ws|
        invariant |r| == |ws|
        invariant forall k | 0 <= k < j :: r[k] == Weight(ws[k])
        invariant forall k | j <= k < |ws| :: r[k] == ws[k]
      {
        if r[j] <= 0 {
          r := r[j := 1];
        }
      }
    }

    method FillProxies(pids: seq<string>)
      requires |pids| == proxies.Length
      modifies proxies
      ensures forall i | 0 <= i < proxies.Length :: proxies[i] == FilledProxy(old(proxies[i]), pids[i])
    {
      for i := 0 to proxies.Length
        invariant forall k | 0 <= k < i :: proxies[k] == FilledProxy(old(proxies[k]), pids[k])
        invariant forall k | i <= k < proxies.Length :: proxies[k] == old(proxies[k])
      {
        var p := proxies[i];
        if p.id == "" { p := p.(id := pids[i]); }
        if p.kind == "" { p := p.(kind := "socks5"); }
        if p.timeout <= 0 { p := p.(timeout := 10); }
        proxies[i] := p;
      }
    }

    /** `ids`, `pids`, `hash` and `secret` are the fresh random values it may need. */
    method Normalize(ids: seq<string>, pids: seq<string>, hash: string, secret: string, now: int)
      requires |ids| == routes.Length && |pids| == proxies.Length
      modifies this, routes, proxies
      ensures settings == FilledSettings(old(settings), hash, secret)
      ensures routes[..] == Normalized(old(routes[..]), ids, now)
      ensures forall i | 0 <= i < proxies.Length :: proxies[i] == FilledProxy(old(proxies[i]), pids[i])
    {
      hide Sort, FilledAll, FilledProxy, FilledSettings;
      settings := FilledSettings(settings, hash, secret);
      FillRoutes(ids, now);
      FillProxies(pids);
      SortInPlace(routes);
    }
  }
}
