/** Active health checks: one round over a pool, and what rounds do to a backend. */
module HealthChecks {
  import opened Text
  import opened Backends
  import opened Pools
  import Breaker

  datatype Config = Config(fails: int, passes: int, codes: seq<int>)

  /** What a probe came back with. */
  datatype Probe = NoRequest | Unreachable(error: string) | Status(code: int)

  /** Any listed status, or any below 400 if none is listed. */
  predicate Accepted(cfg: Config, code: int) {
    if cfg.codes == [] then code < 400 else code in cfg.codes
  }

  /** The probe got no answer, or a status that is not wanted. */
  predicate Rejected(cfg: Config, p: Probe) {
    || p.Unreachable?
    || (p.Status? && cfg.codes == [] && p.code >= 400)
    || (p.Status? && cfg.codes != [] && p.code !in cfg.codes)
  }

  /** It got a status that is. */
  predicate Welcome(cfg: Config, p: Probe) {
    p.Status? && (p.code in cfg.codes || (cfg.codes == [] && p.code < 400))
  }

  method Accepts(cfg: Config, code: int) returns (ok: bool)
    ensures ok == Accepted(cfg, code)
    ensures ok <==> code in cfg.codes || (cfg.codes == [] && code < 400)
  {
    ok := code < 400;
    if |cfg.codes| > 0 {
      ok := false;
      for i := 0 to |cfg.codes|
        invariant !ok && code !in cfg.codes[..i]
      {
        if cfg.codes[i] == code {
          ok := true;
          break;
        }
      }
    }
  }

  /** What one probe does to the breaker; a probe that could not be made does nothing. */
  function Verdict(cfg: Config, internal: bool, p: Probe): Option<Breaker.Event> {
    if internal then Some(Breaker.PassiveSuccess)
    else
      match p
      case NoRequest => None
      case Unreachable(_) => Some(Breaker.Failure)
      case Status(code) => Some(if Accepted(cfg, code) then Breaker.GoodProbe else Breaker.Failure)
  }

  function Judged(cfg: Config, s: Breaker.State, verdict: Option<Breaker.Event>): Breaker.State {
    if verdict.None? then s else Breaker.Step(s, verdict.value, Breaker.ActiveThreshold(cfg.fails), cfg.passes)
  }

  /** One backend's part of a round. */
  method CheckOne(cfg: Config, b: Backend, probe: Probe)
    modifies b`alive, b`fails, b`okStreak, b`lastErr
    ensures b.Health() == Judged(cfg, old(b.Health()), Verdict(cfg, b.Internal(), probe))
    ensures b.url.scheme == "internal" ==> b.alive && b.fails == 0 && b.okStreak == old(b.okStreak)
    ensures b.url.scheme != "internal" && Rejected(cfg, probe) ==>
              b.fails == old(b.fails) + 1 && b.okStreak == 0 && (b.alive <==> old(b.alive) && b.fails < cfg.fails)
    ensures b.url.scheme != "internal" && Welcome(cfg, probe) ==>
              && b.okStreak == old(b.okStreak) + 1
              && if b.okStreak >= cfg.passes then b.alive && b.fails == 0
                 else b.alive == old(b.alive) && b.fails == old(b.fails)
    ensures b.url.scheme != "internal" && probe.NoRequest? ==> b.Health() == old(b.Health())
  {
    if b.Internal() {
      b.MarkSuccess();
      return;
    }
    match probe
    case NoRequest =>
    case Unreachable(error) => b.MarkFail(Some(error), cfg.fails);
    case Status(code) =>
      var ok := Accepts(cfg, code);
      if ok {
        b.MarkOK(cfg.passes);
      } else {
        b.MarkFail(Some("unexpected status"), cfg.fails);
      }
  }

  /** One round: every backend is judged once, by its own probe. */
  method Check(cfg: Config, pool: Pool, probes: seq<Probe>)
    requires pool.Valid() && |probes| == |pool.backends|
    modifies pool.backends`alive, pool.backends`fails, pool.backends`okStreak, pool.backends`lastErr
    ensures forall i | 0 <= i < |probes| ::
              pool.backends[i].Health() ==
              Judged(cfg, old(pool.backends[i].Health()), Verdict(cfg, pool.backends[i].Internal(), probes[i]))
  {
    hide Judged, Verdict;
    Weighted.DistinctMeaning<Backend>(pool.backends);
    for i := 0 to |probes|
      invariant forall k | 0 <= k < i ::
                  pool.backends[k].Health() ==
                  Judged(cfg, old(pool.backends[k].Health()), Verdict(cfg, pool.backends[k].Internal(), probes[k]))
      invariant forall k | i <= k < |probes| :: pool.backends[k].Health() == old(pool.backends[k].Health())
    {
      CheckOne(cfg, pool.backends[i], probes[i]);
    }
  }

  /** The state of one backend after a run of rounds, in which this was found. */
  function Rounds(cfg: Config, internal: bool, s: Breaker.State, probes: seq<Probe>): Breaker.State {
    if probes == [] then s
    else
      var n := |probes| - 1;
      Judged(cfg, Rounds(cfg, internal, s, probes[..n]), Verdict(cfg, internal, probes[n]))
  }

  /** The events of those rounds. */
  function Events(cfg: Config, internal: bool, probes: seq<Probe>): seq<Breaker.Event> {
    if probes == [] then []
    else
      var v := Verdict(cfg, internal, probes[|probes| - 1]);
      Events(cfg, internal, probes[..|probes| - 1]) + if v.Some? then [v.value] else []
  }

  lemma {:induction false} RoundsAreEvents(cfg: Config, internal: bool, h: seq<Breaker.Event>, probes: seq<Probe>)
    ensures Rounds(cfg, internal, Breaker.Run(h, cfg.fails, cfg.passes), probes) ==
            Breaker.Run(h + Events(cfg, internal, probes), cfg.fails, cfg.passes)
  {
    var events := Events(cfg, internal, probes);
    if probes == [] {
      assert h + events == h;
    } else {
      var n := |probes| - 1;
      var front := Events(cfg, internal, probes[..n]);
      RoundsAreEvents(cfg, internal, h, probes[..n]);
      if events != front {
        assert (h + events)[..|h + events| - 1] == h + front;
      }
    }
  }

  lemma {:induction false} GoodRounds(cfg: Config, probes: seq<Probe>)
    requires forall i | 0 <= i < |probes| :: Welcome(cfg, probes[i])
    ensures var events := Events(cfg, false, probes);
            Breaker.Failure !in events && Breaker.GoodProbes(events) == |probes|
  {
    if probes == [] {
    } else {
      var n := |probes| - 1;
      GoodRounds(cfg, probes[..n]);
      var front, events := Events(cfg, false, probes[..n]), Events(cfg, false, probes);
      assert events == front + [Breaker.GoodProbe] && events[..|front|] == front;
    }
  }

  /** Whatever a backend's history, as many accepted rounds in a row as `passes`
      asks for leave it alive with a clean record, and its first round does so for
      a built-in one. */
  lemma ChecksRevive(cfg: Config, h: seq<Breaker.Event>, probes: seq<Probe>)
    requires |probes| >= 1 && |probes| >= cfg.passes
    ensures var s := Breaker.Run(h, cfg.fails, cfg.passes);
            && (Rounds(cfg, true, s, probes[..1]).alive)
            && ((forall i | 0 <= i < |probes| :: Welcome(cfg, probes[i])) ==>
                  Rounds(cfg, false, s, probes).alive && Rounds(cfg, false, s, probes).fails == 0)
  {
    if forall i | 0 <= i < |probes| :: Welcome(cfg, probes[i]) {
      RoundsAreEvents(cfg, false, h, probes);
      GoodRounds(cfg, probes);
      Breaker.Recovers(h, Events(cfg, false, probes), cfg.fails, cfg.passes);
    }
  }

  lemma {:induction false} BadRounds(cfg: Config, probes: seq<Probe>)
    requires forall i | 0 <= i < |probes| :: Rejected(cfg, probes[i])
    ensures var events := Events(cfg, false, probes);
            |events| == |probes| && forall i | 0 <= i < |events| :: events[i] == Breaker.Failure
  {
    if probes == [] {
    } else {
      BadRounds(cfg, probes[..|probes| - 1]);
    }
  }

  /** Whatever a backend's history, rounds in a row without an answer, or with a status
      of 400 or more, or one that is not listed where some are, are all counted, and
      as many of them as `fails` asks for leave the backend dead. */
  lemma ChecksKill(cfg: Config, h: seq<Breaker.Event>, probes: seq<Probe>)
    requires forall i | 0 <= i < |probes| ::
               || probes[i].Unreachable?
               || (probes[i].Status? && cfg.codes == [] && probes[i].code >= 400)
               || (probes[i].Status? && cfg.codes != [] && probes[i].code !in cfg.codes)
    ensures var s := Breaker.Run(h, cfg.fails, cfg.passes);
            var t := Rounds(cfg, false, s, probes);
            && t.fails == s.fails + |probes|
            && (|probes| >= 1 && |probes| >= cfg.fails ==> !t.alive)
  {
    forall i | 0 <= i < |probes|
      ensures Rejected(cfg, probes[i])
    {
    }
    RoundsAreEvents(cfg, false, h, probes);
    BadRounds(cfg, probes);
    Breaker.Trips(h, Events(cfg, false, probes), cfg.fails, cfg.passes);
  }

  /** A round in which no request could be made changes nothing. */
  lemma NoRequestChangesNothing(cfg: Config, s: Breaker.State, probes: seq<Probe>)
    ensures Rounds(cfg, false, s, probes + [NoRequest]) == Rounds(cfg, false, s, probes)
  {
    assert (probes + [NoRequest])[..|probes|] == probes;
  }
}
