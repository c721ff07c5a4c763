/** The retrying round tripper of a route, run by itself: every attempt's outcome
    is an input. Interleaving with other requests is the matter of `Traffic`. */
module RoundTrips {
  import opened Text
  import opened Backends
  import opened Paths
  import opened Pools
  import opened Weighted
  import Breaker

  const NO_BACKEND := "no upstream available"

  datatype RouteConfig = RouteConfig(rule: RouteRule, retry: int, checksOn: bool, fails: int)

  /** A response body that gives its connection back on the first Close only. */
  class CountBody {
    const backend: Backend
    var closed: bool

    constructor (backend: Backend)
      ensures this.backend == backend && !closed
    {
      this.backend, closed := backend, false;
    }

    method Close()
      modifies this`closed, backend`conns
      ensures closed
      ensures backend.conns == old(backend.conns) - if old(closed) then 0 else 1
    {
      if !closed {
        closed := true;
        backend.conns := backend.conns - 1;
      }
    }
  }

  datatype Result = Echo | Response(body: CountBody) | Failed(error: string)

  function Limit(retry: int, hasBody: bool): (r: nat)
    ensures r >= 1
    ensures hasBody ==> r == 1
    ensures !hasBody ==> r == 1 + if retry < 0 then 0 else retry
  {
    if hasBody || retry < 0 then 1 else 1 + retry
  }

  /** The first `n` outcomes are all errors. */
  predicate AllErrors(answers: seq<Option<string>>, n: nat)
    requires n <= |answers|
  {
    n == 0 || (AllErrors(answers, n - 1) && answers[n - 1].Some?)
  }

  lemma OneMoreError(answers: seq<Option<string>>, n: nat)
    requires n < |answers| && AllErrors(answers, n) && answers[n].Some?
    ensures AllErrors(answers, n + 1)
  {
  }

  function BasePaths(bs: seq<Backend>): (r: seq<string>)
    ensures |r| == |bs| && forall i | 0 <= i < |bs| :: r[i] == bs[i].url.basePath
  {
    if bs == [] then [] else BasePaths(bs[..|bs| - 1]) + [bs[|bs| - 1].url.basePath]
  }

  datatype Record = Record(health: Breaker.State, conns: int)

  ghost function Records(bs: seq<Backend>): map<Backend, Record>
    reads bs`alive, bs`fails, bs`okStreak, bs`conns
  {
    map b | b in bs :: Record(b.Health(), b.conns)
  }

  class RouteHandler {
    const cfg: RouteConfig
    const pool: Pool

    constructor (cfg: RouteConfig, pool: Pool)
      ensures this.cfg == cfg && this.pool == pool
    {
      this.cfg, this.pool := cfg, pool;
    }

    function Threshold(): int {
      Breaker.PassiveThreshold(cfg.checksOn, cfg.fails)
    }

    /** The backends of `trail` show one more failure than before, the others
        are as they were, and no connection is held. */
    ghost predicate OnlyFailed(was: map<Backend, Record>, trail: seq<Backend>)
      reads pool.backends`alive, pool.backends`fails, pool.backends`okStreak, pool.backends`conns
    {
      forall b | b in pool.backends ::
        && b in was && b.conns == was[b].conns
        && b.Health() == if b in trail then Breaker.Fail(was[b].health, Threshold()) else was[b].health
    }

    /** As OnlyFailed, but the last backend answered: its record is cleared and it
        holds `held` connections more. */
    ghost predicate Responded(was: map<Backend, Record>, trail: seq<Backend>, held: int)
      requires trail != []
      reads pool.backends`alive, pool.backends`fails, pool.backends`okStreak, pool.backends`conns
    {
      var last := trail[|trail| - 1];
      forall b | b in pool.backends ::
        && b in was
        && b.conns == was[b].conns + (if b == last then held else 0)
        && b.Health() == if b == last then Breaker.Clear(was[b].health)
                         else if b in trail then Breaker.Fail(was[b].health, Threshold())
                         else was[b].health
    }

    ghost predicate LivingThen(alive: set<Backend>, was: map<Backend, Record>) {
      && (forall b | b in pool.backends :: b in was && (b in alive <==> was[b].health.alive))
      && forall b | b in alive :: b in pool.backends
    }

    ghost predicate PickedFrom(alive: set<Backend>, trail: seq<Backend>) {
      WellPicked<Backend>(pool.backends, alive, Spares(pool.backends), trail)
    }

    /** One attempt on `b`: an error gives the connection back and is held
        against the backend; a success keeps it and clears the record. */
    method Attempt(b: Backend, error: Option<string>, ghost was: map<Backend, Record>, ghost trail: seq<Backend>)
      requires OnlyFailed(was, trail) && b in pool.backends && b !in trail
      modifies b
      ensures error.Some? ==> OnlyFailed(was, trail + [b])
      ensures error.None? ==> Responded(was, trail + [b], 1)
    {
      b.conns := b.conns + 1;
      if error.Some? {
        b.conns := b.conns - 1;
        b.MarkFail(error, Threshold());
      } else {
        b.MarkSuccess();
      }
    }

    /** The pool's choice among what is left. */
    method Another(exclude: set<Backend>, ip: seq<bv8>, nanos: nat,
                   ghost was: map<Backend, Record>, ghost alive: set<Backend>, ghost trail: seq<Backend>)
      returns (nb: Backend?)
      requires pool.Valid() && OnlyFailed(was, trail) && exclude == Elements<Backend>(trail)
      requires LivingThen(alive, was)
      modifies pool`rr, pool.backends`curW
      ensures OnlyFailed(was, trail)
      ensures nb == null ==> forall b | b in alive :: b in trail
      ensures nb != null ==> nb in Candidates<Backend>(pool.backends, alive, Spares(pool.backends), exclude)
    {
      SameOutside(alive, was, trail);
      nb := pool.Next(ip, exclude, nanos);
      if nb == null {
        NoneLeft(alive, trail);
      }
    }

    method SelfTest(first: Backend)
      requires first in pool.backends
      modifies first
      ensures Responded(old(Records(pool.backends)), [first], 0)
    {
      first.MarkSuccess();
    }

    method RoundTrip(req: OutRequest, hasBody: bool, first: Backend?, ip: seq<bv8>,
                     clock: nat -> nat, answers: seq<Option<string>>)
      returns (result: Result, trail: seq<Backend>)
      requires pool.Valid() && (first != null ==> first in pool.backends)
      requires |answers| >= Limit(cfg.retry, hasBody)  // one outcome for every attempt in the budget
      modifies req, pool`rr, pool.backends
      ensures first == null ==>
                result == Failed(NO_BACKEND) && trail == [] && OnlyFailed(old(Records(pool.backends)), [])
      ensures first != null && first.Internal() ==>
                result == Echo && trail == [] && Responded(old(Records(pool.backends)), [first], 0)
      // no backend twice, within the budget, every retry well picked
      ensures first != null && !first.Internal() ==>
                && !result.Echo? && trail != [] && trail[0] == first
                && Elements<Backend>(trail) <= Elements<Backend>(pool.backends)
                && |trail| <= Limit(cfg.retry, hasBody)
                && PickedFrom(old(Living(pool.backends)), trail)
      ensures Distinct(trail) && |trail| <= |pool.backends|
      // the same on the fields
      ensures hasBody ==> |trail| <= 1
      ensures |trail| <= 1 + if cfg.retry < 0 then 0 else cfg.retry
      ensures first != null && first.url.scheme != "internal" ==> trail != [] && trail[0] == first
      ensures forall k | 1 <= k < |trail| ::
                && trail[k] in pool.backends && old(trail[k].alive)
                && (trail[k].backup ==>
                      forall b | b in pool.backends && old(b.alive) && !b.backup :: b in trail[..k])
      ensures !hasBody && result.Failed? && trail != [] ==>
                || |trail| == 1 + (if cfg.retry < 0 then 0 else cfg.retry)
                || forall b | b in pool.backends && old(b.alive) :: b in trail
      ensures forall k | 0 <= k < |trail| && (result.Failed? || k < |trail| - 1) ::
                && answers[k].Some? && trail[k] in pool.backends
                && trail[k].fails == old(trail[k].fails) + 1 && trail[k].okStreak == 0
                && (trail[k].alive <==>
                      old(trail[k].alive) && trail[k].fails < if cfg.checksOn && cfg.fails > 0 then cfg.fails else 3)
      ensures result.Response? ==>
                var b := result.body.backend;
                b in pool.backends && b.alive && b.fails == 0 && b.conns == old(b.conns) + 1
      ensures result.Echo? ==> first != null && first.url.scheme == "internal" && first.alive && first.fails == 0
      ensures forall b | b in pool.backends && !(result.Response? && b == result.body.backend) ::
                b.conns == old(b.conns)
      ensures forall b | b in pool.backends && b !in trail && !(result.Echo? && b == first) ::
                b.fails == old(b.fails) && b.okStreak == old(b.okStreak) && b.alive == old(b.alive)
      // every attempt but the last failed; the last decides
      ensures |trail| <= |answers|
      ensures result.Response? ==>
                && trail != [] && AllErrors(answers, |trail| - 1) && answers[|trail| - 1].None?
                && result.body.backend == trail[|trail| - 1] && !result.body.closed && fresh(result.body)
                && Responded(old(Records(pool.backends)), trail, 1)
      ensures result.Failed? && trail != [] ==>
                && AllErrors(answers, |trail|) && answers[|trail| - 1] == Some(result.error)
                && (|trail| == Limit(cfg.retry, hasBody) || forall b | b in old(Living(pool.backends)) :: b in trail)
                && OnlyFailed(old(Records(pool.backends)), trail)
      // every retry rewrites what the attempt before it sent
      ensures trail != [] ==> req.path == PathAfter(cfg.rule, BasePaths(trail[1..]), old(req.path))
      ensures if |trail| <= 1 then req.host == old(req.host) && req.scheme == old(req.scheme)
              else var up := trail[|trail| - 1].url; req.host == up.host && req.scheme == up.scheme
    {
      hide *;
      trail := [];
      ghost var was: map<Backend, Record>, alive: set<Backend> := Records(pool.backends), Living(pool.backends);
      AtTheStart(alive, was, answers);
      RecordsByFields();
      if first == null {
        OnlyFailedByFields(was, trail);
        return Failed(NO_BACKEND), trail;
      }
      InternalByFields(first);
      if first.Internal() {
        SelfTest(first);
        RespondedByFields(was, [first], 0);
        return Echo, trail;
      }
      result, trail := Attempts(req, Limit(cfg.retry, hasBody), first, ip, clock, answers);
      PicksByFields(alive, trail);
      if result.Failed? {
        OnlyFailedByFields(was, trail);
        ErrorsByFields(answers, |trail|);
      } else {
        LastIsNew(trail);
        RespondedByFields(was, trail, 1);
        ErrorsByFields(answers, |trail| - 1);
      }
    }

    lemma InternalByFields(b: Backend)
      ensures b.Internal() <==> b.url.scheme == "internal"
    {
    }

    lemma ErrorsByFields(answers: seq<Option<string>>, n: nat)
      requires n <= |answers| && AllErrors(answers, n)
      ensures forall k | 0 <= k < n :: answers[k].Some?
    {
      if n == 0 {
      } else {
        ErrorsByFields(answers, n - 1);
      }
    }

    /** What the records of this moment say about the fields. */
    lemma RecordsByFields()
      ensures forall b | b in pool.backends ::
                && b in Records(pool.backends)
                && Records(pool.backends)[b] == Record(Breaker.State(b.fails, b.okStreak, b.alive), b.conns)
      ensures forall b :: b in Living(pool.backends) <==> b in pool.backends && b.alive
    {
    }

    lemma OnlyFailedByFields(was: map<Backend, Record>, trail: seq<Backend>)
      requires OnlyFailed(was, trail)
      ensures forall b | b in pool.backends ::
                && b in was && b.conns == was[b].conns
                && if b in trail then
                     && b.fails == was[b].health.fails + 1 && b.okStreak == 0
                        && (b.alive <==> was[b].health.alive
                                         && b.fails < if cfg.checksOn && cfg.fails > 0 then cfg.fails else 3)
                   else Breaker.State(b.fails, b.okStreak, b.alive) == was[b].health
    {
    }

    lemma RespondedByFields(was: map<Backend, Record>, trail: seq<Backend>, held: int)
      requires trail != [] && Responded(was, trail, held)
      ensures forall b | b in pool.backends ::
                && b in was
                && if b == trail[|trail| - 1] then b.conns == was[b].conns + held && b.alive && b.fails == 0
                   else && b.conns == was[b].conns
                        && if b in trail then
                     && b.fails == was[b].health.fails + 1 && b.okStreak == 0
                        && (b.alive <==> was[b].health.alive
                                         && b.fails < if cfg.checksOn && cfg.fails > 0 then cfg.fails else 3)
                           else Breaker.State(b.fails, b.okStreak, b.alive) == was[b].health
    {
    }

    lemma LastIsNew(trail: seq<Backend>)
      requires trail != [] && Distinct(trail)
      ensures forall k | 0 <= k < |trail| - 1 :: trail[k] != trail[|trail| - 1]
    {
      DistinctMeaning<Backend>(trail);
    }

    lemma PicksByFields(alive: set<Backend>, trail: seq<Backend>)
      requires PickedFrom(alive, trail)
      ensures forall k | 1 <= k < |trail| ::
                && trail[k] in pool.backends && trail[k] in alive
                && (trail[k].backup ==> forall b | b in pool.backends && b in alive && !b.backup :: b in trail[..k])
    {
      forall k | 1 <= k < |trail|
        ensures trail[k] in pool.backends && trail[k] in alive
        ensures trail[k].backup ==> forall b | b in pool.backends && b in alive && !b.backup :: b in trail[..k]
      {
        WellPickedMeaning<Backend>(pool.backends, alive, Spares(pool.backends), trail, k);
      }
    }

    /** The retry loop. */
    method Attempts(req: OutRequest, attempts: nat, first: Backend, ip: seq<bv8>,
                    clock: nat -> nat, answers: seq<Option<string>>)
      returns (result: Result, trail: seq<Backend>)
      requires pool.Valid() && first in pool.backends && 1 <= attempts <= |answers|
      modifies req, pool`rr, pool.backends
      ensures !result.Echo? && 1 <= |trail| <= attempts && trail[0] == first
      ensures Elements<Backend>(trail) <= Elements<Backend>(pool.backends)
      ensures PickedFrom(old(Living(pool.backends)), trail)
      ensures Distinct(trail) && |trail| <= |pool.backends|
      ensures result.Response? ==>
                && AllErrors(answers, |trail| - 1) && answers[|trail| - 1].None?
                && result.body.backend == trail[|trail| - 1] && !result.body.closed && fresh(result.body)
                && Responded(old(Records(pool.backends)), trail, 1)
      ensures result.Failed? ==>
                && AllErrors(answers, |trail|) && answers[|trail| - 1] == Some(result.error)
                && (|trail| == attempts || forall b | b in old(Living(pool.backends)) :: b in trail)
                && OnlyFailed(old(Records(pool.backends)), trail)
      ensures req.path == PathAfter(cfg.rule, BasePaths(trail[1..]), old(req.path))
      ensures if |trail| == 1 then req.host == old(req.host) && req.scheme == old(req.scheme)
              else var up := trail[|trail| - 1].url; req.host == up.host && req.scheme == up.scheme
    {
      hide *;
      trail := [];
      var b: Backend := first;
      var exclude: set<Backend> := {};
      var lastErr := NO_BACKEND;
      var i := 0;
      ghost var alive: set<Backend>, was: map<Backend, Record> := Living(pool.backends), Records(pool.backends);
      AtTheStart(alive, was, answers);
      while i < attempts
        invariant 0 <= i == |trail| <= attempts
        invariant i > 0 ==> trail[0] == first
        invariant exclude == Elements<Backend>(trail) <= Elements<Backend>(pool.backends)
        invariant i == 0 ==> b == first
        invariant PickedFrom(alive, trail)
        invariant Distinct(trail) && |trail| <= |pool.backends|
        invariant AllErrors(answers, i)
        invariant i > 0 ==> answers[i - 1] == Some(lastErr)
        invariant OnlyFailed(was, trail)
        invariant req.path == if i == 0 then old(req.path)
                              else PathAfter(cfg.rule, BasePaths(trail[1..]), old(req.path))
        invariant if i <= 1 then req.host == old(req.host) && req.scheme == old(req.scheme)
                  else var up := trail[i - 1].url; req.host == up.host && req.scheme == up.scheme
      {
        if i > 0 {
          var nb := Another(exclude, ip, clock(i), was, alive, trail);
          if nb == null {
            break;
          }
          b := nb;
          req.ApplyOutURL(cfg.rule, b.url);
        }
        Extend(alive, trail, first, b, old(req.path));
        var answer := answers[i];
        Attempt(b, answer, was, trail);
        trail := trail + [b];
        NoneTwice(alive, trail);
        if answer.None? {
          var body := new CountBody(b);
          return Response(body), trail;
        }
        OneMoreError(answers, i);
        lastErr := answer.value;
        exclude := exclude + {b};
        i := i + 1;
      }
      result := Failed(lastErr);
    }

    lemma NoneTwice(alive: set<Backend>, trail: seq<Backend>)
      requires PickedFrom(alive, trail) && Elements<Backend>(trail) <= Elements<Backend>(pool.backends)
      ensures Distinct(trail) && |trail| <= |pool.backends|
    {
      hide Elements;
      WellPickedDistinct<Backend>(pool.backends, alive, Spares(pool.backends), trail);
    }

    lemma AtTheStart(alive: set<Backend>, was: map<Backend, Record>, answers: seq<Option<string>>)
      requires alive == Living(pool.backends) && was == Records(pool.backends)
      ensures PickedFrom(alive, []) && Elements<Backend>([]) == {} && Distinct<Backend>([])
      ensures OnlyFailed(was, []) && AllErrors(answers, 0)
      ensures LivingThen(alive, was)
    {
    }

    /** A candidate list depends on the living set outside the trail only, where
        this request has changed nothing. */
    lemma SameOutside(alive: set<Backend>, was: map<Backend, Record>, trail: seq<Backend>)
      requires OnlyFailed(was, trail)
      requires LivingThen(alive, was)
      ensures pool.CandidatesNow(Elements<Backend>(trail)) ==
              Candidates<Backend>(pool.backends, alive, Spares(pool.backends), Elements<Backend>(trail))
    {
      var now, tried := Living(pool.backends), Elements<Backend>(trail);
      forall b | b in pool.backends && b !in tried
        ensures b in alive <==> b in now
      {
        assert b.Health() == was[b].health;
      }
      assert alive - tried == now - tried;
      CandidatesLocal<Backend>(pool.backends, alive, now, Spares(pool.backends), tried);
    }

    lemma NoneLeft(alive: set<Backend>, trail: seq<Backend>)
      requires alive <= Elements<Backend>(pool.backends)
      requires Candidates<Backend>(pool.backends, alive, Spares(pool.backends), Elements<Backend>(trail)) == []
      ensures forall b | b in alive :: b in trail
    {
      forall b | b in alive
        ensures b in trail
      {
        CandidatesMeaning<Backend>(pool.backends, alive, Spares(pool.backends), Elements<Backend>(trail), b);
      }
    }

    lemma Extend(alive: set<Backend>, trail: seq<Backend>, first: Backend, b: Backend, path: string)
      requires first in pool.backends && (trail == [] ==> b == first)
      requires PickedFrom(alive, trail)
      requires trail != [] ==>
                 b in Candidates<Backend>(pool.backends, alive, Spares(pool.backends), Elements<Backend>(trail))
      ensures b in pool.backends && b !in trail && b in Elements<Backend>(pool.backends)
      ensures Elements<Backend>(trail + [b]) == Elements<Backend>(trail) + {b}
      ensures PickedFrom(alive, trail + [b])
      ensures PathAfter(cfg.rule, BasePaths((trail + [b])[1..]), path) ==
              if trail == [] then path
              else OutPath(cfg.rule, b.url.basePath, PathAfter(cfg.rule, BasePaths(trail[1..]), path))
    {
      hide Pools.Candidates, OutPath;
      var n := |trail|;
      var longer := trail + [b];
      assert longer[..n] == trail && longer[n] == b;
      if n > 0 {
        CandidatesMeaning<Backend>(pool.backends, alive, Spares(pool.backends), Elements<Backend>(trail), b);
        var bases := BasePaths(longer[1..]);
        assert longer[1..][..n - 1] == trail[1..];
        assert bases[n - 1] == b.url.basePath && bases[..n - 1] == BasePaths(trail[1..]);
      }
    }
  }
}
