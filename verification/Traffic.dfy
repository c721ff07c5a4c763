/** One route under load: requests, response bodies and health probes interleave
    in single atomic steps. Backends and requests are numbered. */
module Traffic {
  import opened Text
  import opened Pools
  import opened Weighted
  import Breaker

  type Positive = n: int | n > 0 witness 1

  /** Active checks: off, or on with the positive count of failures that
      normalisation leaves. */
  datatype Checks = Off | On(fails: Positive, passes: int)

  datatype Route = Route(order: seq<nat>, backup: set<nat>, internal: set<nat>, checks: Checks)

  /** The failures that kill a backend, as the retry loop counts them. */
  function Threshold(route: Route): int {
    match route.checks
    case Off => Breaker.PassiveThreshold(false, 0)
    case On(fails, _) => Breaker.PassiveThreshold(true, fails)
  }

  function Passes(route: Route): int {
    if route.checks.On? then route.checks.passes else 0
  }

  /** The health checker, where there is one, counts alike. */
  lemma ProbesCountAlike(route: Route)
    ensures route.checks.On? ==>
              && Breaker.ActiveThreshold(route.checks.fails) == Threshold(route) == route.checks.fails
              && Passes(route) == route.checks.passes
    ensures route.checks.Off? ==> Threshold(route) == 3
  {
  }

  /** How far one request has come; `tried` lists the backends that failed it. */
  datatype Phase =
    | Chosen(b: nat, tried: seq<nat>)     // an attempt is about to start
    | Running(b: nat, tried: seq<nat>)    // the transport is busy
    | Refused(b: nat, tried: seq<nat>)    // it failed and gave its connection back
    | Again(tried: seq<nat>)              // the loop is about to pick another backend
    | Streaming(b: nat, tried: seq<nat>)  // it answered and the body is open
    | Finished(b: nat, tried: seq<nat>)   // the body has been closed
    | GaveUp(tried: seq<nat>)
    | Echoed(b: nat)                      // the built-in upstream answered

  datatype Request = Request(limit: nat, phase: Phase)

  datatype State = State(health: map<nat, Breaker.State>, conns: map<nat, int>, reqs: map<nat, Request>)

  datatype Action =
    | Arrive(r: nat, limit: nat, b: nat)
    | Echo(r: nat)
    | Begin(r: nat)
    | TransportError(r: nat)
    | NoteFailure(r: nat)
    | Retry(r: nat, pick: Option<nat>)
    | Respond(r: nat)
    | Close(r: nat)
    | Probe(n: nat, good: bool)

  function Living(s: State): set<nat> {
    set b | b in s.health && s.health[b].alive
  }

  function Initial(route: Route): State {
    State(map b | b in route.order :: Breaker.FRESH, map b | b in route.order :: 0, map[])
  }

  /** The outcome of Pool.Next lies among these. */
  function Choices(route: Route, s: State, tried: seq<nat>): seq<nat> {
    Candidates(route.order, Living(s), route.backup, Elements(tried))
  }

  /** The first backend of a request is the built-in one, which needs no transport. */
  predicate Echoes(route: Route, p: Phase) {
    p.Chosen? && p.tried == [] && p.b in route.internal
  }

  predicate Enabled(route: Route, s: State, a: Action) {
    match a
    case Arrive(r, limit, b) => r !in s.reqs && limit >= 1 && b in Choices(route, s, [])
    case Echo(r) => r in s.reqs && Echoes(route, s.reqs[r].phase) && s.reqs[r].phase.b in s.health
    case Begin(r) =>
      && r in s.reqs && s.reqs[r].phase.Chosen? && !Echoes(route, s.reqs[r].phase)
      && s.reqs[r].phase.b in s.conns
    case TransportError(r) => r in s.reqs && s.reqs[r].phase.Running? && s.reqs[r].phase.b in s.conns
    case NoteFailure(r) => r in s.reqs && s.reqs[r].phase.Refused? && s.reqs[r].phase.b in s.health
    case Retry(r, pick) =>
      && r in s.reqs && s.reqs[r].phase.Again?
      && var choices := Choices(route, s, s.reqs[r].phase.tried);
         if pick.Some? then pick.value in choices else choices == []
    case Respond(r) => r in s.reqs && s.reqs[r].phase.Running? && s.reqs[r].phase.b in s.health
    case Close(r) =>
      && r in s.reqs && (s.reqs[r].phase.Streaming? || s.reqs[r].phase.Finished?)
      && s.reqs[r].phase.b in s.conns
    case Probe(b, good) => route.checks.On? && b in s.health
  }

  function Moved(s: State, r: nat, phase: Phase): State
    requires r in s.reqs
  {
    s.(reqs := s.reqs[r := s.reqs[r].(phase := phase)])
  }

  function Apply(route: Route, s: State, a: Action): State
    requires Enabled(route, s, a)
  {
    match a
    case Arrive(r, limit, b) =>
      s.(reqs := s.reqs[r := Request(limit, Chosen(b, []))])
    case Echo(r) =>
      var b := s.reqs[r].phase.b;
      Moved(s, r, Echoed(b)).(health := s.health[b := Breaker.Clear(s.health[b])])
    case Begin(r) =>
      var p := s.reqs[r].phase;
      Moved(s, r, Running(p.b, p.tried)).(conns := s.conns[p.b := s.conns[p.b] + 1])
    case TransportError(r) =>
      var p := s.reqs[r].phase;
      Moved(s, r, Refused(p.b, p.tried)).(conns := s.conns[p.b := s.conns[p.b] - 1])
    case NoteFailure(r) =>
      var p := s.reqs[r].phase;
      var tried := p.tried + [p.b];
      Moved(s, r, if |tried| < s.reqs[r].limit then Again(tried) else GaveUp(tried))
        .(health := s.health[p.b := Breaker.Fail(s.health[p.b], Threshold(route))])
    case Retry(r, pick) =>
      var p := s.reqs[r].phase;
      Moved(s, r, if pick.Some? then Chosen(pick.value, p.tried) else GaveUp(p.tried))
    case Respond(r) =>
      var p := s.reqs[r].phase;
      Moved(s, r, Streaming(p.b, p.tried)).(health := s.health[p.b := Breaker.Clear(s.health[p.b])])
    case Close(r) =>
      var p := s.reqs[r].phase;
      if p.Finished? then s
      else Moved(s, r, Finished(p.b, p.tried)).(conns := s.conns[p.b := s.conns[p.b] - 1])
    case Probe(b, good) =>
      s.(health := s.health[b :=
        if b in route.internal then Breaker.Clear(s.health[b])
        else if good then Breaker.Good(s.health[b], Passes(route))
        else Breaker.Fail(s.health[b], Breaker.ActiveThreshold(route.checks.fails))])
  }

  predicate Valid(route: Route, acts: seq<Action>)
    decreases |acts|, 0
  {
    acts == [] ||
    var n := |acts| - 1;
    Valid(route, acts[..n]) && Enabled(route, After(route, acts[..n]), acts[n])
  }

  function After(route: Route, acts: seq<Action>): State
    requires Valid(route, acts)
    decreases |acts|, 1
  {
    if acts == [] then Initial(route)
    else
      var n := |acts| - 1;
      Apply(route, After(route, acts[..n]), acts[n])
  }

  // ---------- What every reachable state keeps ----------

  predicate Holds(p: Phase, b: nat) {
    (p.Running? || p.Streaming?) && p.b == b
  }

  /** The attempts in flight on `b` and the open bodies it serves. */
  function Holders(reqs: map<nat, Request>, b: nat): set<nat> {
    set r | r in reqs && Holds(reqs[r].phase, b)
  }

  /** The backends a request has been sent to, or is about to be. */
  function Trail(p: Phase): seq<nat> {
    match p
    case Again(tried) => tried
    case GaveUp(tried) => tried
    case Echoed(b) => []
    case _ => p.tried + [p.b]
  }

  ghost predicate Sound(order: seq<nat>, q: Request) {
    && Distinct(Trail(q.phase)) && Elements(Trail(q.phase)) <= Elements(order)
    && |Trail(q.phase)| <= q.limit
    && (q.phase.Again? ==> |q.phase.tried| < q.limit)
  }

  ghost predicate Counted(s: State) {
    forall b | b in s.conns :: s.conns[b] == |Holders(s.reqs, b)|
  }

  ghost predicate AllSound(order: seq<nat>, reqs: map<nat, Request>) {
    forall r | r in reqs :: Sound(order, reqs[r])
  }

  predicate Tripped(route: Route, health: map<nat, Breaker.State>) {
    forall b | b in health :: Breaker.Consistent(health[b], Threshold(route))
  }

  ghost predicate Inv(route: Route, s: State) {
    && s.health.Keys == s.conns.Keys == Elements(route.order)
    && Counted(s) && AllSound(route.order, s.reqs) && Tripped(route, s.health)
  }

  lemma HoldersMove(reqs: map<nat, Request>, r: nat, q: Request, b: nat)
    ensures |Holders(reqs[r := q], b)| == |Holders(reqs, b)|
              - (if r in reqs && Holds(reqs[r].phase, b) then 1 else 0)
              + (if Holds(q.phase, b) then 1 else 0)
  {
    var others := Holders(reqs, b) - {r};
    assert Holders(reqs[r := q], b) == if Holds(q.phase, b) then others + {r} else others;
    assert Holders(reqs, b) == if r in reqs && Holds(reqs[r].phase, b) then others + {r} else others;
  }

  lemma CountedMove(s: State, r: nat, q: Request, conns: map<nat, int>, health: map<nat, Breaker.State>)
    requires Counted(s) && conns.Keys == s.conns.Keys
    requires forall b | b in conns ::
               conns[b] == s.conns[b] - (if r in s.reqs && Holds(s.reqs[r].phase, b) then 1 else 0)
                           + (if Holds(q.phase, b) then 1 else 0)
    ensures Counted(State(health, conns, s.reqs[r := q]))
  {
    forall b | b in conns
      ensures conns[b] == |Holders(s.reqs[r := q], b)|
    {
      HoldersMove(s.reqs, r, q, b);
    }
  }

  lemma StepCounts(route: Route, s: State, a: Action)
    requires Inv(route, s) && Enabled(route, s, a)
    ensures Counted(Apply(route, s, a))
  {
    hide Choices, Holders, AllSound, Tripped;
    var s' := Apply(route, s, a);
    match a
    case Probe(b, good) =>
    case Arrive(r, limit, b) => CountedMove(s, r, s'.reqs[r], s'.conns, s'.health);
    case Echo(r) => CountedMove(s, r, s'.reqs[r], s'.conns, s'.health);
    case Begin(r) => CountedMove(s, r, s'.reqs[r], s'.conns, s'.health);
    case TransportError(r) => CountedMove(s, r, s'.reqs[r], s'.conns, s'.health);
    case NoteFailure(r) => CountedMove(s, r, s'.reqs[r], s'.conns, s'.health);
    case Retry(r, pick) => CountedMove(s, r, s'.reqs[r], s'.conns, s'.health);
    case Respond(r) => CountedMove(s, r, s'.reqs[r], s'.conns, s'.health);
    case Close(r) =>
      if s' != s {
        CountedMove(s, r, s'.reqs[r], s'.conns, s'.health);
      }
  }

  lemma Extended(order: seq<nat>, xs: seq<nat>, b: nat)
    requires Distinct(xs) && Elements(xs) <= Elements(order) && b in order && b !in xs
    ensures Distinct(xs + [b]) && Elements(xs + [b]) <= Elements(order)
  {
    assert (xs + [b])[..|xs|] == xs;
    assert b in Elements(order);
  }

  lemma ArrivalSound(route: Route, s: State, a: Action)
    requires Enabled(route, s, a) && a.Arrive?
    ensures Sound(route.order, Apply(route, s, a).reqs[a.r])
  {
    hide Candidates, Living, Distinct, Elements;
    CandidatesMeaning(route.order, Living(s), route.backup, Elements<nat>([]), a.b);
    Lone(route.order, a.b);
  }

  lemma PickSound(route: Route, s: State, a: Action)
    requires Enabled(route, s, a) && a.Retry? && a.pick.Some? && Sound(route.order, s.reqs[a.r])
    ensures Sound(route.order, Apply(route, s, a).reqs[a.r])
  {
    hide Candidates, Living, Distinct, Elements;
    var tried := s.reqs[a.r].phase.tried;
    CandidatesMeaning(route.order, Living(s), route.backup, Elements(tried), a.pick.value);
    InElements(tried, a.pick.value);
    Extended(route.order, tried, a.pick.value);
  }

  lemma ActorSound(route: Route, s: State, a: Action)
    requires Enabled(route, s, a) && !a.Probe?
    requires a.r in s.reqs ==> Sound(route.order, s.reqs[a.r])
    ensures Sound(route.order, Apply(route, s, a).reqs[a.r])
  {
    hide Choices, Living, Distinct, Elements;
    if a.Arrive? {
      ArrivalSound(route, s, a);
    } else if a.Echo? {
      NothingTried(route.order);
    } else if a.Retry? && a.pick.Some? {
      PickSound(route, s, a);
    }
  }

  lemma InElements(xs: seq<nat>, b: nat)
    ensures b in Elements(xs) <==> b in xs
  {
  }

  lemma Lone(order: seq<nat>, b: nat)
    requires b in order
    ensures Distinct([] + [b]) && Elements([] + [b]) <= Elements(order)
    ensures Distinct<nat>([]) && Elements<nat>([]) <= Elements(order)
  {
    NothingTried(order);
    Extended(order, [], b);
  }

  lemma NothingTried(order: seq<nat>)
    ensures Distinct<nat>([]) && Elements<nat>([]) <= Elements(order)
  {
  }

  lemma StepSound(route: Route, s: State, a: Action)
    requires AllSound(route.order, s.reqs) && Enabled(route, s, a)
    ensures AllSound(route.order, Apply(route, s, a).reqs)
  {
    hide Choices, Sound;
    var s' := Apply(route, s, a);
    if a.Probe? {
      assert s'.reqs == s.reqs;
    } else {
      ActorSound(route, s, a);
      assert s'.reqs == s.reqs[a.r := s'.reqs[a.r]];
    }
  }

  lemma StepTrips(route: Route, s: State, a: Action)
    requires Tripped(route, s.health) && Enabled(route, s, a)
    requires s.health.Keys == s.conns.Keys
    ensures Tripped(route, Apply(route, s, a).health)
    ensures Apply(route, s, a).health.Keys == s.health.Keys == Apply(route, s, a).conns.Keys
  {
    hide Choices, Breaker.Consistent, Breaker.Fail, Breaker.Good, Breaker.Clear;
    forall b | b in s.health
      ensures Breaker.Consistent(Breaker.Fail(s.health[b], Threshold(route)), Threshold(route))
      ensures Breaker.Consistent(Breaker.Good(s.health[b], Passes(route)), Threshold(route))
      ensures Breaker.Consistent(Breaker.Clear(s.health[b]), Threshold(route))
    {
      Breaker.StaysConsistent(s.health[b], Threshold(route), Passes(route));
    }
  }

  lemma StepKeepsInv(route: Route, s: State, a: Action)
    requires Inv(route, s) && Enabled(route, s, a)
    ensures Inv(route, Apply(route, s, a))
  {
    hide Counted, AllSound, Choices, Tripped, Enabled, Apply;
    StepCounts(route, s, a);
    StepSound(route, s, a);
    StepTrips(route, s, a);
  }

  /** In every reachable state, however requests, closes and probes interleave: a
      backend's connection count is the number of its running attempts and open
      bodies, no request visits a backend twice or overruns its budget, and a
      backend is alive exactly when its failures are below the threshold. */
  lemma {:induction false} EveryReachableState(route: Route, acts: seq<Action>)
    requires Valid(route, acts)
    ensures Inv(route, After(route, acts))
  {
    if acts == [] {
      var s := Initial(route);
      forall b | b in s.conns
        ensures s.conns[b] == |Holders(s.reqs, b)|
      {
        assert Holders(s.reqs, b) == {};
      }
    } else {
      var n := |acts| - 1;
      EveryReachableState(route, acts[..n]);
      StepKeepsInv(route, After(route, acts[..n]), acts[n]);
    }
  }

  /** No request makes more attempts than its budget or than there are backends. */
  lemma AttemptsBounded(route: Route, acts: seq<Action>, r: nat)
    requires Valid(route, acts) && r in After(route, acts).reqs
    ensures var q := After(route, acts).reqs[r];
            |Trail(q.phase)| <= q.limit && |Trail(q.phase)| <= |route.order|
  {
    EveryReachableState(route, acts);
    var trail := Trail(After(route, acts).reqs[r].phase);
    DistinctSize(trail);
    ElementsSize(route.order);
    SubsetSize(Elements(trail), Elements(route.order));
  }

  // ---------- What single steps promise ----------

  /** A request is handed to a living backend it has not tried, and to a backup
      only if every living primary has failed it. */
  lemma PickRule(route: Route, s: State, a: Action, r: nat)
    requires Enabled(route, s, a)
    requires (a.Arrive? && a.r == r) || (a.Retry? && a.r == r && a.pick.Some?)
    ensures var b := if a.Arrive? then a.b else a.pick.value;
            var tried := if a.Arrive? then [] else s.reqs[r].phase.tried;
            && b in Living(s) && b !in tried
            && (b in route.backup ==> forall y | y in route.order && y in Living(s) && y !in route.backup :: y in tried)
  {
    var b := if a.Arrive? then a.b else a.pick.value;
    var tried := if a.Arrive? then [] else s.reqs[r].phase.tried;
    CandidatesMeaning(route.order, Living(s), route.backup, Elements(tried), b);
  }

  /** A request fails only when its budget is spent or no living backend is left
      that has not failed it. */
  lemma GiveUpRule(route: Route, s: State, a: Action, r: nat)
    requires Inv(route, s) && Enabled(route, s, a) && r in Apply(route, s, a).reqs
    requires Apply(route, s, a).reqs[r].phase.GaveUp? && (r in s.reqs ==> !s.reqs[r].phase.GaveUp?)
    ensures var q := Apply(route, s, a).reqs[r];
            |q.phase.tried| == q.limit || forall b | b in Living(s) :: b in q.phase.tried
  {
    hide Candidates, Counted, Tripped, Distinct, Elements, Living;
    if a.Retry? {
      var tried := s.reqs[r].phase.tried;
      forall b | b in Living(s)
        ensures b in tried
      {
        LivingAreKnown(route, s, b);
        InElements(tried, b);
        CandidatesMeaning(route.order, Living(s), route.backup, Elements(tried), b);
      }
    } else {
      assert Sound(route.order, s.reqs[r]);
    }
  }

  lemma LivingAreKnown(route: Route, s: State, b: nat)
    requires Inv(route, s) && b in Living(s)
    ensures b in route.order
  {
    hide Counted, AllSound, Tripped;
    assert b in Elements(route.order);
  }

  /** What probes do to a backend that is not built in. */
  lemma ProbeEffects(route: Route, s: State, b: nat, good: bool)
    requires Enabled(route, s, Probe(b, good)) && b !in route.internal
    ensures var h, k := s.health[b], Apply(route, s, Probe(b, good)).health[b];
            if good then
              && k.okStreak == h.okStreak + 1
              && if k.okStreak >= route.checks.passes then k.alive && k.fails == 0
                 else k.alive == h.alive && k.fails == h.fails
            else k.fails == h.fails + 1 && k.okStreak == 0 && (k.alive <==> h.alive && k.fails < route.checks.fails)
  {
  }

  // ---------- A backend's health over a run ----------

  /** What one step does to the breaker of backend `b`. */
  function Effect(route: Route, s: State, a: Action, b: nat): Option<Breaker.Event>
    requires Enabled(route, s, a)
  {
    match a
    case Echo(r) => if s.reqs[r].phase.b == b then Some(Breaker.PassiveSuccess) else None
    case NoteFailure(r) => if s.reqs[r].phase.b == b then Some(Breaker.Failure) else None
    case Respond(r) => if s.reqs[r].phase.b == b then Some(Breaker.PassiveSuccess) else None
    case Probe(c, good) =>
      if c != b then None
      else if b in route.internal then Some(Breaker.PassiveSuccess)
      else Some(if good then Breaker.GoodProbe else Breaker.Failure)
    case _ => None
  }

  /** The breaker events of backend `b` along a run. */
  function Events(route: Route, acts: seq<Action>, b: nat): seq<Breaker.Event>
    requires Valid(route, acts)
  {
    if acts == [] then []
    else
      var n := |acts| - 1;
      var e := Effect(route, After(route, acts[..n]), acts[n], b);
      Events(route, acts[..n], b) + if e.Some? then [e.value] else []
  }

  lemma EffectOnHealth(route: Route, s: State, a: Action, b: nat)
    requires Enabled(route, s, a) && b in s.health
    ensures var e, t := Effect(route, s, a, b), Apply(route, s, a);
            && b in t.health
            && t.health[b] == if e.None? then s.health[b]
                              else Breaker.Step(s.health[b], e.value, Threshold(route), Passes(route))
  {
    hide Choices, Breaker.Fail, Breaker.Good, Breaker.Clear;
  }

  /** However requests and probes interleave, every breaker stands where its own
      events lead. */
  lemma {:induction false} HealthIsHistory(route: Route, acts: seq<Action>, b: nat)
    requires Valid(route, acts) && b in route.order
    ensures b in After(route, acts).health
    ensures After(route, acts).health[b] == Breaker.Run(Events(route, acts, b), Threshold(route), Passes(route))
  {
    hide Effect, Enabled, Apply, Breaker.Step;
    if acts == [] {
      assert b in Initial(route).health;
    } else {
      var n := |acts| - 1;
      var s, front, all := After(route, acts[..n]), Events(route, acts[..n], b), Events(route, acts, b);
      HealthIsHistory(route, acts[..n], b);
      EffectOnHealth(route, s, acts[n], b);
      if all != front {
        assert all[..|all| - 1] == front;
      }
    }
  }

  lemma {:induction false} EventsGrow(route: Route, acts: seq<Action>, b: nat, k: nat)
    requires Valid(route, acts) && k <= |acts|
    ensures Valid(route, acts[..k]) && Events(route, acts[..k], b) <= Events(route, acts, b)
  {
    hide Effect, Enabled, Apply;
    if k == |acts| {
      assert acts[..k] == acts;
    } else {
      var n := |acts| - 1;
      EventsGrow(route, acts[..n], b, k);
      assert acts[..n][..k] == acts[..k];
    }
  }

  /** A backend is alive exactly when fewer of its failures than the threshold are
      unforgiven; and it is alive with a clean record, whatever else goes on, once
      `passes` good probes have come since any step with no failure among them. */
  lemma HealthOverRuns(route: Route, acts: seq<Action>, b: nat, k: nat)
    requires Valid(route, acts) && b in route.order && k <= |acts|
    ensures b in Living(After(route, acts)) <==>
            || Breaker.Unforgiven(Events(route, acts, b), Passes(route)) == {}
            || |Breaker.Unforgiven(Events(route, acts, b), Passes(route))| < Threshold(route)
    ensures Valid(route, acts[..k]) && Events(route, acts[..k], b) <= Events(route, acts, b)
    ensures var since := Events(route, acts, b)[|Events(route, acts[..k], b)|..];
            && Breaker.Failure !in since
            && Breaker.GoodProbes(since) >= 1 && Breaker.GoodProbes(since) >= Passes(route) ==>
              b in Living(After(route, acts)) && After(route, acts).health[b].fails == 0
  {
    hide Valid, After, Events, Breaker.Run, Breaker.GoodProbes, Breaker.Unforgiven;
    HealthIsHistory(route, acts, b);
    EventsGrow(route, acts, b, k);
    var before, all := Events(route, acts[..k], b), Events(route, acts, b);
    Breaker.RunMeansHistory(all, Threshold(route), Passes(route));
    assert all == before + all[|before|..];
    if Breaker.Failure !in all[|before|..] {
      Breaker.Recovers(before, all[|before|..], Threshold(route), Passes(route));
    }
  }

  // ---------- Without probes ----------

  /** No step of the run brings a dead backend back. */
  predicate NeverRevives(route: Route, acts: seq<Action>)
    requires Valid(route, acts)
  {
    acts == [] ||
    var n := |acts| - 1;
    NeverRevives(route, acts[..n]) && Living(After(route, acts)) <= Living(After(route, acts[..n]))
  }

  /** Every answer comes from a backend that is alive when it comes. */
  predicate AnsweredByLiving(route: Route, acts: seq<Action>)
    requires Valid(route, acts)
  {
    acts == [] ||
    var n := |acts| - 1;
    && AnsweredByLiving(route, acts[..n])
    && (Answers(acts[n]) ==>
          After(route, acts[..n]).reqs[acts[n].r].phase.b in Living(After(route, acts[..n])))
  }

  /** A transport's answer or an echo: what clears a backend's record. */
  predicate Answers(a: Action) {
    a.Respond? || a.Echo?
  }

  lemma RevivesExactly(route: Route, s: State, a: Action)
    requires Enabled(route, s, a) && !a.Probe?
    ensures Living(Apply(route, s, a)) <= Living(s) <==> (Answers(a) ==> s.reqs[a.r].phase.b in Living(s))
  {
    hide Choices;
    if Answers(a) {
      assert s.reqs[a.r].phase.b in Living(Apply(route, s, a));
    }
  }

  /** Without probes, however requests overlap: no dead backend ever comes back
      exactly when every answer comes from a backend still alive. */
  lemma {:induction false} DeadStayDeadExactly(route: Route, acts: seq<Action>)
    requires Valid(route, acts) && forall a | a in acts :: !a.Probe?
    ensures NeverRevives(route, acts) <==> AnsweredByLiving(route, acts)
  {
    hide Enabled, Apply, Living;
    if acts == [] {
    } else {
      var n := |acts| - 1;
      assert forall a | a in acts[..n] :: a in acts;
      assert acts[n] in acts;
      DeadStayDeadExactly(route, acts[..n]);
      RevivesExactly(route, After(route, acts[..n]), acts[n]);
    }
  }

  lemma OffDisablesProbes(route: Route, s: State, a: Action)
    requires route.checks.Off? && Enabled(route, s, a)
    ensures !a.Probe?
  {
  }

  /** With health checks off there are no probes. */
  lemma {:induction false} OffMeansNoProbes(route: Route, acts: seq<Action>)
    requires Valid(route, acts) && route.checks.Off?
    ensures forall a | a in acts :: !a.Probe?
  {
    hide Apply, Enabled;
    if acts == [] {
    } else {
      var n := |acts| - 1;
      OffMeansNoProbes(route, acts[..n]);
      OffDisablesProbes(route, After(route, acts[..n]), acts[n]);
      assert acts == acts[..n] + [acts[n]];
    }
  }

  lemma {:induction false} NeverRevivesMeaning(route: Route, acts: seq<Action>, k: nat)
    requires Valid(route, acts) && NeverRevives(route, acts) && k <= |acts|
    ensures Valid(route, acts[..k]) && Living(After(route, acts)) <= Living(After(route, acts[..k]))
  {
    hide Enabled, Apply, Living;
    if k == |acts| {
      assert acts[..k] == acts;
    } else {
      var n := |acts| - 1;
      NeverRevivesMeaning(route, acts[..n], k);
      assert acts[..n][..k] == acts[..k];
    }
  }

  predicate Busy(q: Request) {
    q.phase.Chosen? || q.phase.Running? || q.phase.Refused? || q.phase.Again?
  }

  /** No probes, and a request arrives only when none is in its retry loop. */
  predicate OneByOne(route: Route, acts: seq<Action>)
    requires Valid(route, acts)
  {
    acts == [] ||
    var n := |acts| - 1;
    && OneByOne(route, acts[..n])
    && !acts[n].Probe?
    && (acts[n].Arrive? ==> forall r | r in After(route, acts[..n]).reqs :: !Busy(After(route, acts[..n]).reqs[r]))
  }

  /** At most one request is in its loop, and what it was handed is alive. */
  predicate Calm(s: State) {
    && (forall r, r' | r in s.reqs && r' in s.reqs :: Busy(s.reqs[r]) && Busy(s.reqs[r']) ==> r == r')
    && (forall r | r in s.reqs :: s.reqs[r].phase.Chosen? || s.reqs[r].phase.Running? ==>
          s.reqs[r].phase.b in Living(s))
  }

  lemma CalmStep(route: Route, s: State, a: Action)
    requires Calm(s) && Enabled(route, s, a) && !a.Probe?
    requires a.Arrive? ==> forall r | r in s.reqs :: !Busy(s.reqs[r])
    ensures Calm(Apply(route, s, a)) && (Answers(a) ==> s.reqs[a.r].phase.b in Living(s))
  {
    hide Candidates, Elements;
    if a.Arrive? {
      CandidatesMeaning(route.order, Living(s), route.backup, Elements<nat>([]), a.b);
    } else if a.Retry? && a.pick.Some? {
      CandidatesMeaning(route.order, Living(s), route.backup, Elements(s.reqs[a.r].phase.tried), a.pick.value);
    }
  }

  lemma CalmAtFirst(route: Route)
    ensures Calm(Initial(route))
  {
  }

  lemma {:induction false} OneByOneIsAnsweredByLiving(route: Route, acts: seq<Action>)
    requires Valid(route, acts) && OneByOne(route, acts)
    ensures Calm(After(route, acts)) && AnsweredByLiving(route, acts)
    ensures forall a | a in acts :: !a.Probe?
  {
    hide Calm, Living, Enabled, Apply;
    if acts == [] {
      CalmAtFirst(route);
    } else {
      var n := |acts| - 1;
      OneByOneIsAnsweredByLiving(route, acts[..n]);
      CalmStep(route, After(route, acts[..n]), acts[n]);
      assert acts == acts[..n] + [acts[n]];
    }
  }

  /** In particular with requests served one by one: the living set only shrinks
      along the run. */
  lemma DeadStayDead(route: Route, acts: seq<Action>, k: nat)
    requires Valid(route, acts) && OneByOne(route, acts) && k <= |acts|
    ensures Valid(route, acts[..k])
    ensures Living(After(route, acts)) <= Living(After(route, acts[..k]))
  {
    hide *;
    OneByOneIsAnsweredByLiving(route, acts);
    DeadStayDeadExactly(route, acts);
    NeverRevivesMeaning(route, acts, k);
  }

  lemma {:induction false} Append(route: Route, acts: seq<Action>, a: Action)
    requires Valid(route, acts) && Enabled(route, After(route, acts), a)
    ensures Valid(route, acts + [a]) && After(route, acts + [a]) == Apply(route, After(route, acts), a)
  {
    assert (acts + [a])[..|acts|] == acts;
  }

  lemma Origin(route: Route)
    ensures Valid(route, []) && After(route, []) == Initial(route)
  {
  }

  /** One backend, checks off. */
  const LONE := Route([7], {}, {}, Off)

  lemma LoneChoice(s: State)
    requires Living(s) == {7}
    ensures 7 in Choices(LONE, s, [])
  {
    CandidatesMeaning([7], {7}, {}, Elements<nat>([]), 7);
  }

  /** Request 0 is with its transport, and requests 1 to `n` have given up. */
  function Queue(n: nat): (m: map<nat, Request>)
    ensures 0 in m && m[0] == Request(1, Running(7, [])) && forall r | r in m :: r <= n
  {
    if n == 0 then map[0 := Request(1, Running(7, []))] else Queue(n - 1)[n := Request(1, GaveUp([7]))]
  }

  /** That many have failed on the backend one after another. */
  function Slow(n: nat): State {
    State(map[7 := Breaker.State(n, 0, n < 3)], map[7 := 1], Queue(n))
  }

  function During(n: nat, phase: Phase, conns: int): State {
    var s := Slow(n);
    s.(reqs := s.reqs[n + 1 := Request(1, phase)], conns := map[7 := conns])
  }

  lemma SlowStarts() returns (acts: seq<Action>)
    ensures Valid(LONE, acts) && After(LONE, acts) == Slow(0)
  {
    hide Choices, After, Valid;
    Origin(LONE);
    var s := Initial(LONE);
    assert s == State(map[7 := Breaker.FRESH], map[7 := 0], map[]);
    LoneChoice(s);
    Append(LONE, [], Arrive(0, 1, 7));
    acts := [] + [Arrive(0, 1, 7)];
    Append(LONE, acts, Begin(0));
    acts := acts + [Begin(0)];
    assert After(LONE, acts) == Slow(0);
  }

  lemma OneBegins(n: nat, before: seq<Action>) returns (acts: seq<Action>)
    requires n < 3 && Valid(LONE, before) && After(LONE, before) == Slow(n)
    ensures Valid(LONE, acts) && After(LONE, acts) == During(n, Running(7, []), 2)
  {
    hide Choices, After, Valid;
    LoneChoice(Slow(n));
    Append(LONE, before, Arrive(n + 1, 1, 7));
    acts := before + [Arrive(n + 1, 1, 7)];
    assert After(LONE, acts) == During(n, Chosen(7, []), 1);
    Append(LONE, acts, Begin(n + 1));
    acts := acts + [Begin(n + 1)];
  }

  lemma OneFails(n: nat, before: seq<Action>) returns (acts: seq<Action>)
    requires n < 3 && Valid(LONE, before) && After(LONE, before) == During(n, Running(7, []), 2)
    ensures Valid(LONE, acts) && After(LONE, acts) == Slow(n + 1)
  {
    hide Choices, After, Valid;
    Append(LONE, before, TransportError(n + 1));
    acts := before + [TransportError(n + 1)];
    assert After(LONE, acts) == During(n, Refused(7, []), 1);
    Append(LONE, acts, NoteFailure(n + 1));
    acts := acts + [NoteFailure(n + 1)];
    assert [] + [7] == [7];
    var reqs := After(LONE, acts).reqs;
    assert reqs == Queue(n)[n + 1 := Request(1, Refused(7, []))][n + 1 := Request(1, GaveUp([7]))];
    assert reqs == Queue(n + 1);
  }

  lemma {:induction false} SlowGoesOn(n: nat) returns (acts: seq<Action>)
    requires n <= 3
    ensures Valid(LONE, acts) && After(LONE, acts) == Slow(n)
  {
    if n == 0 {
      acts := SlowStarts();
    } else {
      hide *;
      acts := SlowGoesOn(n - 1);
      acts := OneBegins(n - 1, acts);
      acts := OneFails(n - 1, acts);
    }
  }

  /** Overlapping requests can break that: with checks off, a slow success brings
      back a backend that three other requests have just seen fail. */
  lemma LateSuccessRevives() returns (acts: seq<Action>, last: Action)
    ensures LONE.checks.Off? && Valid(LONE, acts) && Valid(LONE, acts + [last])
    ensures Living(After(LONE, acts)) == {} && Living(After(LONE, acts + [last])) == {7}
  {
    hide Choices, After, Valid;
    acts := SlowGoesOn(3);
    last := Respond(0);
    Append(LONE, acts, last);
  }
}
