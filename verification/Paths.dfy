/** What path goes upstream: the rewrite that every attempt applies to the URL it
    finds, and the split of a path that carries its target domain. */
module Paths {
  import opened Text

  // ---------- applyOutURL ----------

  datatype RouteRule = RouteRule(path: string, rewrite: string, strip: bool)

  datatype Upstream = Upstream(scheme: string, host: string, basePath: string)

  /** The route's own part of the rewrite. */
  function Mapped(rule: RouteRule, p: string): string {
    if rule.rewrite != "" then TrimRightSlash(rule.rewrite) + WithSlash(TrimPrefix(p, rule.path))
    else if rule.strip then WithSlash(TrimPrefix(p, rule.path))
    else p
  }

  function OutPath(rule: RouteRule, basePath: string, p: string): string {
    TrimRightSlash(basePath) + Mapped(rule, p)
  }

  class OutRequest {
    var scheme: string
    var host: string
    var path: string
    var rawPath: string

    constructor (path: string)
      ensures this.path == path && scheme == "" && host == "" && rawPath == ""
    {
      this.path, scheme, host, rawPath := path, "", "", "";
    }

    method ApplyOutURL(rule: RouteRule, up: Upstream)
      modifies this
      ensures path == OutPath(rule, up.basePath, old(path))
      ensures scheme == up.scheme && host == up.host && rawPath == ""
    {
      var orig := path;
      var p := orig;
      if rule.rewrite != "" {
        var rw := TrimRightSlash(rule.rewrite);
        var rest := TrimPrefix(orig, rule.path);
        if !("/" <= rest) {
          rest := "/" + rest;
        }
        p := rw + rest;
        if p == "" {
          p := "/";
        }
      } else if rule.strip {
        p := TrimPrefix(orig, rule.path);
        if !("/" <= p) {
          p := "/" + p;
        }
        if p == "" {
          p := "/";
        }
      }
      var base := TrimRightSlash(up.basePath);
      scheme, host, path, rawPath := up.scheme, up.host, base + p, "";
    }

    /** The request to the domain named in the incoming path `full`. */
    method RewriteDynamic(full: string, prefix: string, scheme: string)
      modifies this
      ensures host == DynDomainOf(full, prefix) && path == DynPathOf(full, prefix)
      ensures this.scheme == scheme && rawPath == ""
    {
      var dom := DynDomainOf(full, prefix);
      var inner := RoutePathInner(full, prefix);
      var rest := TrimPrefix(inner, "/");
      var i := IndexOf(rest, '/');
      rest := if i < |rest| then rest[i..] else "";
      this.scheme, host, path := scheme, dom, rest;
      if path == "" {
        path := "/";
      }
      rawPath := "";
    }
  }

  predicate Slashless(s: string) {
    s == "" || s[|s| - 1] != '/'
  }

  function Slashes(n: nat): string {
    if n == 0 then "" else Slashes(n - 1) + "/"
  }

  lemma TrimsOne(s: string)
    ensures TrimRightSlash(s + "/") == TrimRightSlash(s)
  {
    var longer := s + "/";
    assert longer[|longer| - 1] == '/' && longer[..|longer| - 1] == s;
  }

  lemma Assoc(a: string, b: string, c: string)
    ensures a + (b + c) == a + b + c
  {
  }

  lemma {:induction false} TrimsSlashes(s: string, n: nat)
    requires Slashless(s)
    ensures TrimRightSlash(s + Slashes(n)) == s
  {
    if n == 0 {
      assert s + Slashes(0) == s;
    } else {
      hide TrimRightSlash;
      TrimsSlashes(s, n - 1);
      TrimsOne(s + Slashes(n - 1));
      Assoc(s, Slashes(n - 1), "/");
    }
  }

  lemma PrefixDropped(path: string, p: string)
    ensures var rest := if |path| <= |p| && p[..|path|] == path then p[|path|..] else p;
            WithSlash(TrimPrefix(p, path)) == if rest != "" && rest[0] == '/' then rest else "/" + rest
  {
  }

  /** A first attempt keeps what follows the route's path, or all of a path that does
      not begin with it, puts the rewrite, or nothing, or the route's path in front
      of it, and the base path in front of all; slashes at the end of base path and
      rewrite do not matter. */
  lemma RestIsKept(rule: RouteRule, rw: string, n: nat, base: string, k: nat, p: string)
    requires Slashless(rw) && rule.rewrite == rw + Slashes(n) && Slashless(base)
    ensures var rest := if |rule.path| <= |p| && p[..|rule.path|] == rule.path then p[|rule.path|..] else p;
            var kept := if rest != "" && rest[0] == '/' then rest else "/" + rest;
            OutPath(rule, base + Slashes(k), p) ==
            if rule.rewrite != "" then base + rw + kept
            else if rule.strip then base + kept
            else base + p
  {
    hide TrimRightSlash, Slashless, Slashes, WithSlash, TrimPrefix;
    TrimsSlashes(rw, n);
    TrimsSlashes(base, k);
    PrefixDropped(rule.path, p);
    Assoc(base, rw, WithSlash(TrimPrefix(p, rule.path)));
  }

  // ---------- Retries rewrite what is already rewritten ----------

  /** The path after the backends with these base paths were tried in turn. */
  function PathAfter(rule: RouteRule, bases: seq<string>, p: string): string {
    if bases == [] then p
    else OutPath(rule, bases[|bases| - 1], PathAfter(rule, bases[..|bases| - 1], p))
  }

  /** What the next rewrite finds in front of the part it should keep. */
  function Prepended(rule: RouteRule, base: string): string {
    TrimRightSlash(base) + if rule.rewrite != "" then TrimRightSlash(rule.rewrite) else ""
  }

  /** A rewrite towards `base` that a later rewrite undoes. */
  predicate Forgotten(rule: RouteRule, base: string, p: string) {
    if rule.rewrite == "" && !rule.strip then TrimRightSlash(base) == ""
    else
      var pre, kept := Prepended(rule, base), WithSlash(TrimPrefix(p, rule.path));
      if rule.path <= pre + kept
      then rule.path == pre || (rule.path == pre + "/" && !("/" <= kept[1..]))
      else pre == ""
  }

  lemma KeptExactly(path: string, pre: string, kept: string)
    requires "/" <= kept
    ensures WithSlash(TrimPrefix(pre + kept, path)) == kept <==>
            if path <= pre + kept
            then path == pre || (path == pre + "/" && !("/" <= kept[1..]))
            else pre == ""
  {
    var all := pre + kept;
    if path <= all {
      var rest := all[|path|..];
      if |path| == |pre| {
        assert path == pre && rest == kept;
      } else if |path| == |pre| + 1 {
        assert path == pre + "/" && rest == kept[1..];
        assert kept == "/" + kept[1..];
      } else {
        assert WithSlash(rest) != kept by {
          assert |WithSlash(rest)| in {|rest|, |rest| + 1};
        }
      }
    } else if pre != "" {
      assert |WithSlash(all)| > |kept|;
    } else {
      assert all == kept;
    }
  }

  lemma SamePrefix(a: string, x: string, y: string)
    ensures a + x == a + y <==> x == y
  {
    assert (a + x)[|a|..] == x && (a + y)[|a|..] == y;
  }

  lemma MappedAgain(rule: RouteRule, base: string, p: string)
    ensures Mapped(rule, OutPath(rule, base, p)) == Mapped(rule, p) <==> Forgotten(rule, base, p)
  {
    var q := OutPath(rule, base, p);
    if rule.rewrite == "" && !rule.strip {
      assert |q| == |TrimRightSlash(base)| + |p|;
    } else {
      var pre, kept := Prepended(rule, base), WithSlash(TrimPrefix(p, rule.path));
      assert q == pre + kept;
      KeptExactly(rule.path, pre, kept);
      if rule.rewrite != "" {
        SamePrefix(TrimRightSlash(rule.rewrite), WithSlash(TrimPrefix(q, rule.path)), kept);
      }
    }
  }

  /** A second rewrite sends what a first attempt would have sent, exactly when
      the first one is forgotten. */
  lemma SecondAttemptPath(rule: RouteRule, first: string, second: string, p: string)
    ensures OutPath(rule, second, OutPath(rule, first, p)) == OutPath(rule, second, p)
       <==> Forgotten(rule, first, p)
  {
    MappedAgain(rule, first, p);
    SamePrefix(TrimRightSlash(second), Mapped(rule, OutPath(rule, first, p)), Mapped(rule, p));
  }

  /** Attempt `k` of the trail sends what a first attempt to its backend would. */
  predicate Direct(rule: RouteRule, bases: seq<string>, p: string, k: nat)
    requires k < |bases|
  {
    PathAfter(rule, bases[..k + 1], p) == OutPath(rule, bases[k], p)
  }

  lemma DirectStep(rule: RouteRule, bases: seq<string>, p: string, k: nat)
    requires k < |bases|
    ensures k == 0 ==> Direct(rule, bases, p, k)
    ensures k > 0 && Direct(rule, bases, p, k - 1) ==>
              (Direct(rule, bases, p, k) <==> Forgotten(rule, bases[k - 1], p))
  {
    assert bases[..k + 1][..k] == bases[..k];
    assert PathAfter(rule, bases[..k + 1], p) == OutPath(rule, bases[k], PathAfter(rule, bases[..k], p));
    if k > 0 {
      SecondAttemptPath(rule, bases[k - 1], bases[k], p);
    }
  }

  lemma {:induction false} RetryTrailPaths'(rule: RouteRule, bases: seq<string>, p: string, n: nat)
    requires n <= |bases|
    ensures (forall k | 0 <= k < n :: Direct(rule, bases, p, k))
       <==> (forall k | 0 <= k < n - 1 :: Forgotten(rule, bases[k], p))
  {
    hide Direct, Forgotten;
    if n == 0 {
    } else {
      RetryTrailPaths'(rule, bases, p, n - 1);
      DirectStep(rule, bases, p, n - 1);
    }
  }

  /** Every attempt of a retry trail sends what a first attempt to its backend
      would send, exactly when every rewrite but the last is forgotten. */
  lemma RetryTrailPaths(rule: RouteRule, bases: seq<string>, p: string)
    ensures (forall k | 0 <= k < |bases| :: Direct(rule, bases, p, k))
       <==> (forall k | 0 <= k < |bases| - 1 :: Forgotten(rule, bases[k], p))
  {
    RetryTrailPaths'(rule, bases, p, |bases|);
  }

  /** Base paths pile up: a retry after `http://a/v1` goes to `/v2/v1/x`. */
  lemma BasePathsPileUp()
    ensures PathAfter(RouteRule("/", "", false), ["/v1", "/v2"], "/x") == "/v2/v1/x"
  {
    var rule := RouteRule("/", "", false);
    assert ["/v1", "/v2"][..1] == ["/v1"] && ["/v1"][..0] == [];
    assert PathAfter(rule, ["/v1"], "/x") == "/v1/x";
  }

  // ---------- The target domain inside the path ----------

  function RoutePathInner(full: string, prefix: string): string {
    if prefix == "" || prefix == "/" then full
    else
      var rest := TrimPrefix(full, prefix);
      if rest == "" then "/" else WithSlash(rest)
  }

  /** What is left once the route prefix and one slash are gone. */
  function Raw(full: string, prefix: string): string {
    TrimPrefix(RoutePathInner(full, prefix), "/")
  }

  const BLANKS := {' ', '\t', '\r', '\n'}

  /** The domain a path names, or "" if it names none. */
  function DynDomainOf(full: string, prefix: string): string {
    var raw := Raw(full, prefix);
    var domain := raw[..IndexOf(raw, '/')];
    if domain == "" || domain[0] == '.' || (exists c | c in domain :: c in BLANKS) then "" else domain
  }

  /** The path rewriteDynamic sends. */
  function DynPathOf(full: string, prefix: string): string {
    var raw := Raw(full, prefix);
    var rest := raw[IndexOf(raw, '/')..];
    if rest == "" then "/" else rest
  }

  predicate ValidDomain(d: string) {
    && d != "" && d[0] != '.' && '/' !in d
    && ' ' !in d && '\t' !in d && '\r' !in d && '\n' !in d
  }

  predicate ValidRest(r: string) {
    r == "" || r[0] == '/'
  }

  /** The inner path is all of it under an empty prefix or the bare slash, and else
      what follows the prefix, or all of a path without it, behind one slash. */
  lemma InnerExactly(full: string, prefix: string)
    ensures var rest := if |prefix| <= |full| && full[..|prefix|] == prefix then full[|prefix|..] else full;
            && (prefix == "" || prefix == "/" ==> RoutePathInner(full, prefix) == full)
            && (prefix != "" && prefix != "/" ==>
                  RoutePathInner(full, prefix) == if rest != "" && rest[0] == '/' then rest else "/" + rest)
    ensures var inner := RoutePathInner(full, prefix);
            Raw(full, prefix) == if inner != "" && inner[0] == '/' then inner[1..] else inner
  {
  }

  lemma FirstSlash(domain: string, rest: string)
    requires '/' !in domain && ValidRest(rest)
    ensures IndexOf(domain + rest, '/') == |domain|
  {
    var s := domain + rest;
    assert forall k | 0 <= k < |domain| :: s[k] == domain[k];
    if rest != "" {
      assert s[|domain|] == rest[0];
    }
  }

  lemma FirstSlashDropped(tail: string)
    ensures TrimPrefix("/" + tail, "/") == tail
  {
    assert ("/" + tail)[1..] == tail;
  }

  lemma InnerOfJoin(prefix: string, tail: string)
    ensures RoutePathInner(prefix + ("/" + tail), prefix) ==
            if prefix == "/" then "/" + ("/" + tail) else "/" + tail
  {
    assert (prefix + ("/" + tail))[|prefix|..] == "/" + tail;
  }

  lemma RawOfJoin(prefix: string, domain: string, rest: string)
    ensures prefix != "/" ==> Raw(prefix + "/" + domain + rest, prefix) == domain + rest
    ensures Raw("/" + domain + rest, "/") == domain + rest
    ensures Raw("//" + domain + rest, "/") == "/" + domain + rest
  {
    hide RoutePathInner, TrimPrefix;
    var tail := domain + rest;
    FirstSlashDropped(tail);
    FirstSlashDropped("/" + tail);
    InnerOfJoin(prefix, tail);
    InnerOfJoin("/", tail);
    InnerOfRoot("/" + tail);
    Assoc(prefix + "/", domain, rest);
    Assoc(prefix, "/", tail);
    Assoc("/", domain, rest);
    Assoc("//", domain, rest);
    assert "//" + tail == "/" + ("/" + tail);
  }

  lemma InnerOfRoot(full: string)
    ensures RoutePathInner(full, "/") == full
  {
  }

  lemma OnlySplit(full: string, prefix: string, domain: string, rest: string)
    requires ValidDomain(domain) && ValidRest(rest) && Raw(full, prefix) == domain + rest
    ensures domain == DynDomainOf(full, prefix)
    ensures (if rest == "" then "/" else rest) == DynPathOf(full, prefix)
  {
    hide Raw;
    var raw := Raw(full, prefix);
    FirstSlash(domain, rest);
    assert raw[..|domain|] == domain && raw[|domain|..] == rest;
  }

  lemma DoubledSlash(tail: string)
    requires Raw("//" + tail, "/") == "/" + tail
    ensures DynDomainOf("//" + tail, "/") == ""
  {
    hide Raw;
    assert IndexOf("/" + tail, '/') == 0;
  }

  /** Splitting undoes joining: prefix, slash, domain and rest come apart again
      exactly when the route prefix is not the bare slash, for which the slash
      must not be doubled. */
  lemma SplitUndoesJoin(prefix: string, domain: string, rest: string)
    requires ValidDomain(domain) && ValidRest(rest)
    ensures var full := prefix + "/" + domain + rest;
            DynDomainOf(full, prefix) == domain <==> prefix != "/"
    ensures var full := if prefix == "/" then "/" + domain + rest else prefix + "/" + domain + rest;
            && DynDomainOf(full, prefix) == domain
            && DynPathOf(full, prefix) == if rest == "" then "/" else rest
  {
    hide Raw, DynDomainOf, DynPathOf, ValidRest;
    RawOfJoin(prefix, domain, rest);
    if prefix == "/" {
      OnlySplit("/" + domain + rest, "/", domain, rest);
      Assoc("//", domain, rest);
      Assoc("/", domain, rest);
      assert prefix + "/" == "//";
      DoubledSlash(domain + rest);
    } else {
      OnlySplit(prefix + "/" + domain + rest, prefix, domain, rest);
    }
  }

  /** Joining undoes splitting: a path is accepted exactly when what is left of it
      is a valid domain followed by a valid rest, and then it is that pair. */
  lemma JoinUndoesSplit(full: string, prefix: string)
    ensures DynDomainOf(full, prefix) != "" <==>
            exists d, r :: ValidDomain(d) && ValidRest(r) && Raw(full, prefix) == d + r
    ensures forall d, r | ValidDomain(d) && ValidRest(r) && Raw(full, prefix) == d + r ::
              d == DynDomainOf(full, prefix) && (if r == "" then "/" else r) == DynPathOf(full, prefix)
  {
    hide Raw;
    var raw := Raw(full, prefix);
    var i := IndexOf(raw, '/');
    if DynDomainOf(full, prefix) != "" {
      assert raw == raw[..i] + raw[i..] && ValidDomain(raw[..i]) && ValidRest(raw[i..]);
    }
    forall d, r | ValidDomain(d) && ValidRest(r) && raw == d + r
      ensures d == DynDomainOf(full, prefix) && (if r == "" then "/" else r) == DynPathOf(full, prefix)
    {
      OnlySplit(full, prefix, d, r);
    }
  }
}
