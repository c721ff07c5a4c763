/** Reuse of HTTP transports: TransportManager.Get and the proxy key it relies on. */
module TransportCache {
  import opened Text

  datatype ProxyConfig = ProxyConfig(kind: string, addr: string, user: string, pass: string, timeout: int)

  // ---------- Proxy keys ----------

  /** No proxy is needed. */
  predicate Empty(c: Option<ProxyConfig>) {
    c.None? || c.value.kind == "" || c.value.kind == "direct" || c.value.addr == ""
  }

  function Key(c: Option<ProxyConfig>): string {
    if Empty(c) then "direct"
    else c.value.kind + "|" + c.value.addr + "|" + c.value.user + "|" + c.value.pass
  }

  /** Seconds allowed for dialling and for the handshake. */
  function Timeout(c: Option<ProxyConfig>): int {
    if c.None? || c.value.timeout <= 0 then 10 else c.value.timeout
  }

  predicate PipeFree(s: string) {
    '|' !in s
  }

  predicate PlainTarget(c: Option<ProxyConfig>) {
    Empty(c) || (PipeFree(c.value.kind) && PipeFree(c.value.addr))
  }

  /** Type, address and user name contain no '|'; the password may. */
  predicate Plain(c: Option<ProxyConfig>) {
    PlainTarget(c) && (Empty(c) || PipeFree(c.value.user))
  }

  /** How connections are opened. */
  datatype Dial = Direct(timeout: int) | Via(kind: string, addr: string, user: string, pass: string, timeout: int)

  function DialOf(c: Option<ProxyConfig>): Dial {
    if Empty(c) then Direct(Timeout(c))
    else Via(c.value.kind, c.value.addr, c.value.user, c.value.pass, Timeout(c))
  }

  predicate SameButTimeout(a: Dial, b: Dial) {
    a == b.(timeout := a.timeout)
  }

  lemma FirstPipeAt(a: string, x: string)
    requires PipeFree(a)
    ensures IndexOf(a + "|" + x, '|') == |a|
  {
    var s := a + "|" + x;
    assert s[|a|] == '|';
    assert forall k | 0 <= k < |a| :: s[k] == a[k] && a[k] in a;
  }

  lemma FirstPipe(a: string, x: string, b: string, y: string)
    requires PipeFree(a) && PipeFree(b) && a + "|" + x == b + "|" + y
    ensures a == b && x == y
  {
    FirstPipeAt(a, x);
    FirstPipeAt(b, y);
    var s := a + "|" + x;
    assert s[..|a|] == a && s[..|b|] == b && s[|a| + 1..] == x && s[|b| + 1..] == y;
  }

  lemma KeyOfProxy(c: Option<ProxyConfig>)
    requires !Empty(c)
    ensures Key(c) == c.value.kind + "|" + (c.value.addr + "|" + (c.value.user + "|" + c.value.pass))
  {
    var k, a, u, p := c.value.kind, c.value.addr, c.value.user, c.value.pass;
    assert k + "|" + a + "|" + u + "|" + p == k + "|" + (a + "|" + (u + "|" + p));
  }

  /** A real proxy is never taken for a direct connection. */
  lemma ProxyIsNotDirect(c: Option<ProxyConfig>)
    ensures Key(c) == "direct" <==> Empty(c)
    ensures Key(c) == "direct" <==>
            c.None? || c.value.kind == "" || c.value.kind == "direct" || c.value.addr == ""
  {
    if !Empty(c) {
      assert Key(c)[|c.value.kind|] == '|';
      assert '|' in Key(c) && '|' !in "direct";
    }
  }

  /** Plain proxies with one key are dialled alike, but for the timeout. */
  lemma PlainKeysIdentify(c: Option<ProxyConfig>, d: Option<ProxyConfig>)
    requires Plain(c) && Plain(d)
    ensures Key(c) == Key(d) <==> SameButTimeout(DialOf(c), DialOf(d))
  {
    ProxyIsNotDirect(c);
    ProxyIsNotDirect(d);
    if !Empty(c) && !Empty(d) {
      SplitKeys(c, d);
    }
  }

  lemma SplitKeys(c: Option<ProxyConfig>, d: Option<ProxyConfig>)
    requires Plain(c) && Plain(d) && !Empty(c) && !Empty(d)
    ensures Key(c) == Key(d) ==> c.value == d.value.(timeout := c.value.timeout)
  {
    hide Key, PipeFree;
    KeyOfProxy(c);
    KeyOfProxy(d);
    if Key(c) == Key(d) {
      var p, q := c.value, d.value;
      FirstPipe(p.kind, p.addr + "|" + (p.user + "|" + p.pass), q.kind, q.addr + "|" + (q.user + "|" + q.pass));
      FirstPipe(p.addr, p.user + "|" + p.pass, q.addr, q.user + "|" + q.pass);
      FirstPipe(p.user, p.pass, q.user, q.pass);
    }
  }

  /** The fields are joined without escaping, so a '|' in a user name always makes
      a second, plain proxy with the same key: the part behind it reads as the
      start of the password. */
  function Shifted(p: ProxyConfig): ProxyConfig
    requires !PipeFree(p.user)
  {
    var i := IndexOf(p.user, '|');
    p.(user := p.user[..i], pass := if i < |p.user| then p.user[i + 1..] + "|" + p.pass else "")
  }

  lemma ShiftedShares(p: ProxyConfig)
    requires !Empty(Some(p)) && PlainTarget(Some(p)) && !PipeFree(p.user)
    ensures Plain(Some(Shifted(p))) && Key(Some(Shifted(p))) == Key(Some(p))
    ensures !SameButTimeout(DialOf(Some(Shifted(p))), DialOf(Some(p)))
  {
    var i := IndexOf(p.user, '|');
    var q := Shifted(p);
    assert i < |p.user|;
    assert p.user == q.user + "|" + p.user[i + 1..];
    KeyOfProxy(Some(p));
    KeyOfProxy(Some(q));
    assert p.user + "|" + p.pass == q.user + "|" + q.pass;
    assert |q.user| < |p.user|;
  }

  /** Among plain proxies the key of `c` stands for `c` alone exactly when the user
      name of `c` contains no '|'. */
  lemma KeyIdentifiesExactly(c: ProxyConfig)
    requires !Empty(Some(c)) && PlainTarget(Some(c))
    ensures (forall d: ProxyConfig | Plain(Some(d)) && Key(Some(d)) == Key(Some(c)) ::
               SameButTimeout(DialOf(Some(d)), DialOf(Some(c))))
       <==> PipeFree(c.user)
  {
    hide Key, DialOf, PipeFree;
    if PipeFree(c.user) {
      forall d: ProxyConfig | Plain(Some(d)) && Key(Some(d)) == Key(Some(c))
        ensures SameButTimeout(DialOf(Some(d)), DialOf(Some(c)))
      {
        PlainKeysIdentify(Some(d), Some(c));
      }
    } else {
      ShiftedShares(c);
    }
  }

  // ---------- Transports ----------

  datatype Opts = Opts(proxy: Option<ProxyConfig>, insecure: bool, dialTO: int, respTO: int, keepAlive: int,
                       maxIdle: int, maxPerHost: int)

  datatype TransportKey = TransportKey(proxy: string, insecure: bool, dialTO: int, respTO: int, keepAlive: int,
                                       idleConn: int, maxHost: int)

  /** What distinguishes one transport from another; times in seconds, and no
      header timeout means to wait for ever. */
  datatype Settings = Settings(dial: Dial, maxIdle: int, maxIdlePerHost: int, maxPerHost: int, tlsTimeout: int,
                               headerTimeout: Option<int>, insecure: bool)

  function Defaults(o: Opts): Opts {
    o.(dialTO := if o.dialTO <= 0 then 10 else o.dialTO,
       keepAlive := if o.keepAlive <= 0 then 30 else o.keepAlive,
       maxIdle := if o.maxIdle <= 0 then 200 else o.maxIdle)
  }

  function KeyOf(o: Opts): TransportKey {
    var d := Defaults(o);
    TransportKey(Key(d.proxy), d.insecure, d.dialTO, d.respTO, d.keepAlive, d.maxIdle, d.maxPerHost)
  }

  /** A transport made for these options and no others. */
  function Built(o: Opts): Settings {
    var d := Defaults(o);
    Settings(DialOf(d.proxy), d.maxIdle, if d.maxIdle / 4 < 2 then 2 else d.maxIdle / 4, d.maxPerHost, d.dialTO,
             if d.respTO > 0 then Some(d.respTO) else None, d.insecure)
  }

  /** What a transport takes from its options, with the defaults of those that are
      missing. */
  lemma BuiltExactly(o: Opts)
    ensures var b := Built(o);
            && b.insecure == o.insecure && b.maxPerHost == o.maxPerHost
            && (o.respTO > 0 ==> b.headerTimeout == Some(o.respTO)) && (o.respTO <= 0 ==> b.headerTimeout == None)
            && (o.dialTO > 0 ==> b.tlsTimeout == o.dialTO) && (o.dialTO <= 0 ==> b.tlsTimeout == 10)
            && (o.maxIdle > 0 ==> b.maxIdle == o.maxIdle) && (o.maxIdle <= 0 ==> b.maxIdle == 200)
            && 2 <= b.maxIdlePerHost
            && (b.maxIdle >= 8 ==> 4 * b.maxIdlePerHost <= b.maxIdle < 4 * b.maxIdlePerHost + 4)
            && (b.maxIdle < 8 ==> b.maxIdlePerHost == 2)
            && (var p := o.proxy;
                if p.None? || p.value.kind == "" || p.value.kind == "direct" || p.value.addr == "" then b.dial.Direct?
                else b.dial == Via(p.value.kind, p.value.addr, p.value.user, p.value.pass, b.dial.timeout))
            && b.dial.timeout == if o.proxy.None? || o.proxy.value.timeout <= 0 then 10 else o.proxy.value.timeout
  {
    hide Key;
  }

  /** Two requests have one key exactly when they ask for the same, missing values
      being their defaults. */
  lemma KeysAgreeExactly(a: Opts, b: Opts)
    ensures KeyOf(a) == KeyOf(b) <==>
            && Key(a.proxy) == Key(b.proxy)
            && a.insecure == b.insecure && a.respTO == b.respTO && a.maxPerHost == b.maxPerHost
            && (if a.dialTO > 0 then a.dialTO else 10) == (if b.dialTO > 0 then b.dialTO else 10)
            && (if a.keepAlive > 0 then a.keepAlive else 30) == (if b.keepAlive > 0 then b.keepAlive else 30)
            && (if a.maxIdle > 0 then a.maxIdle else 200) == (if b.maxIdle > 0 then b.maxIdle else 200)
  {
    hide Key;
  }

  /** Options with one key ask for the same transport exactly when their proxies
      have the same timeout, which the key leaves out. */
  lemma ReuseIsFaithfulExactly(a: Opts, b: Opts)
    requires Plain(a.proxy) && Plain(b.proxy) && KeyOf(a) == KeyOf(b)
    ensures Built(a) == Built(b) <==> Timeout(a.proxy) == Timeout(b.proxy)
    ensures Built(a) == Built(b).(dial := Built(a).dial) && SameButTimeout(Built(a).dial, Built(b).dial)
  {
    hide Key, Plain, Empty;
    PlainKeysIdentify(a.proxy, b.proxy);
    assert DialOf(a.proxy).timeout == Timeout(a.proxy) && DialOf(b.proxy).timeout == Timeout(b.proxy);
  }

  /** `o` is the first of the options asked for under key `k`. */
  ghost predicate FirstAsked(asked: seq<Opts>, k: TransportKey, o: Opts) {
    exists j | 0 <= j < |asked| :: asked[j] == o && KeyOf(o) == k && NoneBefore(asked, k, j)
  }

  ghost predicate NoneBefore(asked: seq<Opts>, k: TransportKey, j: nat)
    requires j <= |asked|
  {
    forall i | 0 <= i < j :: KeyOf(asked[i]) != k
  }

  lemma FirstStays(asked: seq<Opts>, k: TransportKey, o: Opts, next: Opts)
    requires FirstAsked(asked, k, o)
    ensures FirstAsked(asked + [next], k, o)
  {
    hide KeyOf;
    var j :| 0 <= j < |asked| && asked[j] == o && KeyOf(o) == k && NoneBefore(asked, k, j);
    assert NoneBefore(asked + [next], k, j) && (asked + [next])[j] == o;
  }

  lemma FirstStarts(asked: seq<Opts>, o: Opts)
    requires NoneBefore(asked, KeyOf(o), |asked|)
    ensures FirstAsked(asked + [o], KeyOf(o), o)
  {
    hide KeyOf;
    assert NoneBefore(asked + [o], KeyOf(o), |asked|) && (asked + [o])[|asked|] == o;
  }

  class Transport {
    const settings: Settings
    ghost const origin: Opts

    constructor (o: Opts)
      ensures settings == Built(o) && origin == o
    {
      var d := Defaults(o);
      var perHost := d.maxIdle / 4;
      if perHost < 2 {
        perHost := 2;
      }
      settings := Settings(DialOf(d.proxy), d.maxIdle, perHost, d.maxPerHost, d.dialTO,
                           if d.respTO > 0 then Some(d.respTO) else None, d.insecure);
      origin := o;
    }
  }

  class TransportManager {
    var cache: map<TransportKey, Transport>

    /** Every request so far, and its answer. */
    ghost var asked: seq<Opts>
    ghost var given: seq<Transport>

    ghost predicate Valid()
      reads this
    {
      && |asked| == |given|
      && (forall i | 0 <= i < |asked| :: KeyOf(asked[i]) in cache && cache[KeyOf(asked[i])] == given[i])
      && (forall k | k in cache :: FirstAsked(asked, k, cache[k].origin))
      && (forall k | k in cache :: cache[k].settings == Built(cache[k].origin))
    }

    constructor ()
      ensures Valid() && asked == [] && cache == map[]
    {
      cache, asked, given := map[], [], [];
    }

    method Get(o: Opts) returns (tr: Transport)
      requires Valid()
      modifies this
      ensures Valid() && asked == old(asked) + [o] && given == old(given) + [tr]
      ensures KeyOf(o) in old(cache) ==> tr == old(cache)[KeyOf(o)] && cache == old(cache)
      ensures KeyOf(o) !in old(cache) ==> fresh(tr) && tr.settings == Built(o) && cache == old(cache)[KeyOf(o) := tr]
    {
      hide KeyOf, Built, FirstAsked;
      var key := KeyOf(o);
      if key in cache {
        tr := cache[key];
      } else {
        FirstStarts(asked, o);
        tr := new Transport(o);
        cache := cache[key := tr];
      }
      forall k | k in old(cache)
        ensures FirstAsked(asked + [o], k, old(cache)[k].origin)
      {
        FirstStays(asked, k, old(cache)[k].origin, o);
      }
      asked, given := asked + [o], given + [tr];
    }
  }

  /** Over any run: two requests share a transport exactly when their keys are equal. */
  lemma SharedExactlyByKey(m: TransportManager, i: nat, j: nat)
    requires m.Valid() && i < |m.asked| && j < |m.asked|
    ensures m.given[i] == m.given[j] <==> KeyOf(m.asked[i]) == KeyOf(m.asked[j])
  {
    hide KeyOf, Built;
  }

  /** Over any run of plain requests: whatever came before, the transport handed out
      is the one a fresh build would give, except for the proxy timeout, which is
      that of the first request with the same key. */
  lemma ServedAsBuilt(m: TransportManager, i: nat)
    requires m.Valid() && i < |m.asked| && forall o | o in m.asked :: Plain(o.proxy)
    ensures var got, want := m.given[i].settings, Built(m.asked[i]);
            got == want.(dial := got.dial) && SameButTimeout(got.dial, want.dial)
    ensures exists j | 0 <= j <= i ::
              && KeyOf(m.asked[j]) == KeyOf(m.asked[i]) && NoneBefore(m.asked, KeyOf(m.asked[i]), j)
              && m.given[i].settings == Built(m.asked[j])
  {
    hide KeyOf, Plain, Empty, Key;
    var tr, k := m.given[i], KeyOf(m.asked[i]);
    var j :| 0 <= j < |m.asked| && m.asked[j] == tr.origin && KeyOf(tr.origin) == k && NoneBefore(m.asked, k, j);
    ReuseIsFaithfulExactly(tr.origin, m.asked[i]);
  }
}
