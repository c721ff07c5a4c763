/** The token bucket, and the per-client limiter whose idle buckets are collected. */
module Limiters {
  import opened Text

  datatype Rate = Rate(rps: real, burst: int) {
    ghost predicate Valid() {
      rps > 0.0 && burst >= 1
    }
  }

  /** A bucket nobody has used yet, or its tokens at its latest refill. */
  datatype Level = Unused | Level(tokens: real, last: real)

  function Min(a: real, b: real): real {
    if a < b then a else b
  }

  /** The tokens that come in over so many seconds. */
  function Gain(rate: Rate, elapsed: real): real {
    elapsed * rate.rps
  }

  /** `rps` tokens come in every second. */
  lemma GainMeans(rate: Rate, elapsed: real)
    ensures Gain(rate, elapsed) == elapsed * rate.rps && Gain(rate, 1.0) == rate.rps
  {
  }

  lemma GainSign(rate: Rate, elapsed: real)
    requires rate.Valid()
    ensures elapsed > 0.0 ==> Gain(rate, elapsed) > 0.0
    ensures elapsed >= 0.0 ==> Gain(rate, elapsed) >= 0.0
    ensures Gain(rate, 0.0) == 0.0
  {
  }

  lemma GainAdds(rate: Rate, a: real, b: real)
    ensures Gain(rate, a) + Gain(rate, b) == Gain(rate, a + b)
  {
  }

  function Refill(l: Level, rate: Rate, now: real): (r: Level)
    ensures r.Level?
  {
    if l.Unused? then Level(rate.burst as real, now)
    else if now > l.last then Level(Min(l.tokens + Gain(rate, now - l.last), rate.burst as real), now)
    else l
  }

  datatype Taken = Taken(level: Level, ok: bool)

  function Draw(l: Level, rate: Rate, now: real): (r: Taken)
    ensures r.level.Level?
  {
    var f := Refill(l, rate, now);
    if f.tokens < 1.0 then Taken(f, false) else Taken(f.(tokens := f.tokens - 1.0), true)
  }

  ghost predicate InRange(l: Level, rate: Rate) {
    l.Level? ==> 0.0 <= l.tokens <= rate.burst as real
  }

  // ---------- One bucket over a run of calls ----------

  datatype Tally = Tally(level: Level, admitted: nat, spilled: real)

  /** What a refill throws away because the bucket is full. */
  function Spill(l: Level, rate: Rate, now: real): real {
    if l.Unused? || now <= l.last then 0.0
    else
      var full := l.tokens + Gain(rate, now - l.last);
      full - Min(full, rate.burst as real)
  }

  /** Calls at the times `nows`, which may come in any order. */
  function Calls(l: Level, rate: Rate, nows: seq<real>): Tally {
    if nows == [] then Tally(l, 0, 0.0)
    else
      var n := |nows| - 1;
      var t := Calls(l, rate, nows[..n]);
      var k := Draw(t.level, rate, nows[n]);
      Tally(k.level, t.admitted + (if k.ok then 1 else 0), t.spilled + Spill(t.level, rate, nows[n]))
  }

  function Latest(last: real, nows: seq<real>): real {
    if nows == [] then last
    else
      var m := Latest(last, nows[..|nows| - 1]);
      var now := nows[|nows| - 1];
      if now > m then now else m
  }

  /** The bucket a run starts with: one that nobody has used is full at its first
      call. */
  function Opening(l: Level, rate: Rate, now: real): (o: Level)
    ensures o.Level?
  {
    if l.Unused? then Level(rate.burst as real, now) else l
  }

  lemma TakeLedger(l: Level, rate: Rate, now: real)
    requires rate.Valid() && InRange(l, rate)
    ensures var t, o := Draw(l, rate, now), Opening(l, rate, now);
            && InRange(t.level, rate) && InRange(o, rate) && Spill(l, rate, now) >= 0.0
            && t.level.last == (if now > o.last then now else o.last)
            && t.level.tokens + (if t.ok then 1.0 else 0.0) + Spill(l, rate, now)
               == o.tokens + Gain(rate, t.level.last - o.last)
  {
    hide Gain;
    GainSign(rate, now - Opening(l, rate, now).last);
    GainSign(rate, 0.0);
  }

  /** Tokens are conserved over every run, whatever the order of the clock
      readings: what is left, what was admitted and what overflowed add up to what
      was there plus the refill up to the latest reading. */
  lemma {:induction false} TokensConserved(l: Level, rate: Rate, nows: seq<real>)
    requires rate.Valid() && InRange(l, rate)
    ensures var t := Calls(l, rate, nows);
            && InRange(t.level, rate) && t.spilled >= 0.0
            && (nows == [] ==> t == Tally(l, 0, 0.0))
            && (nows != [] ==>
                  var o := Opening(l, rate, nows[0]);
                  && t.level.Level? && t.level.last == Latest(o.last, nows) >= o.last
                  && t.level.tokens + t.admitted as real + t.spilled == o.tokens + Gain(rate, t.level.last - o.last))
  {
    hide Gain, Draw, Spill;
    if nows == [] {
    } else {
      var n := |nows| - 1;
      TokensConserved(l, rate, nows[..n]);
      var t := Calls(l, rate, nows[..n]);
      TakeLedger(t.level, rate, nows[n]);
      if n > 0 {
        var o, after := Opening(l, rate, nows[0]), Draw(t.level, rate, nows[n]).level;
        assert nows[..n][0] == nows[0];
        GainAdds(rate, t.level.last - o.last, after.last - t.level.last);
      } else {
        assert Latest(Opening(l, rate, nows[0]).last, nows[..n]) == Opening(l, rate, nows[0]).last;
      }
    }
  }

  lemma {:induction false} CallsFromRefilled(l: Level, rate: Rate, nows: seq<real>)
    requires nows != []
    ensures var f := Refill(l, rate, nows[0]);
            && Calls(f, rate, nows).level == Calls(l, rate, nows).level
            && Calls(f, rate, nows).admitted == Calls(l, rate, nows).admitted
  {
    hide Gain;
    var n := |nows| - 1;
    if n == 0 {
      assert nows[..0] == [];
    } else {
      assert nows[..n][0] == nows[0];
      CallsFromRefilled(l, rate, nows[..n]);
    }
  }

  lemma Refilled(l: Level, rate: Rate, now: real)
    requires rate.Valid() && InRange(l, rate)
    ensures var f := Refill(l, rate, now);
            InRange(f, rate) && f.last == if l.Level? && l.last > now then l.last else now
  {
    hide Gain;
    if l.Level? {
      GainSign(rate, now - l.last);
    }
  }

  /** So no run, from a bucket in any state, admits more than what was there plus
      the refill of its time span; and never more than the burst plus the refill
      since its first call, or since the latest refill if that is later still. */
  lemma AdmissionBound(l: Level, rate: Rate, nows: seq<real>)
    requires rate.Valid() && InRange(l, rate)
    ensures nows == [] ==> Calls(l, rate, nows).admitted == 0
    ensures nows != [] ==>
              var o, t := Opening(l, rate, nows[0]), Calls(l, rate, nows);
              t.admitted as real <= o.tokens + Gain(rate, Latest(o.last, nows) - o.last)
    ensures nows != [] ==>
              var from := if l.Level? && l.last > nows[0] then l.last else nows[0];
              Calls(l, rate, nows).admitted as real <= rate.burst as real + Gain(rate, Latest(from, nows) - from)
  {
    hide Gain, Calls, Refill;
    TokensConserved(l, rate, nows);
    if nows != [] {
      var f := Refill(l, rate, nows[0]);
      Refilled(l, rate, nows[0]);
      CallsFromRefilled(l, rate, nows);
      TokensConserved(f, rate, nows);
    }
  }

  /** A denied client is admitted at its next call exactly when the refill since
      then makes up the missing part of a token; 1/rps of quiet is enough. */
  lemma AfterDenial(l: Level, rate: Rate, now: real, next: real)
    requires rate.Valid() && InRange(l, rate) && !Draw(l, rate, now).ok
    ensures var d := Draw(l, rate, now).level;
            && (next >= d.last ==>
                  (Draw(d, rate, next).ok <==> d.tokens + Gain(rate, next - d.last) >= 1.0))
            && (next - d.last >= 1.0 / rate.rps ==> Draw(d, rate, next).ok)
  {
    hide Gain;
    var d := Draw(l, rate, now).level;
    TakeLedger(l, rate, now);
    GainSign(rate, 0.0);
    if next - d.last >= 1.0 / rate.rps {
      QuietEnough(rate, next - d.last);
    }
  }

  lemma QuietEnough(rate: Rate, wait: real)
    requires rate.Valid() && wait >= 1.0 / rate.rps
    ensures wait > 0.0 && Gain(rate, wait) >= 1.0
  {
    var least := 1.0 / rate.rps;
    assert least * rate.rps == 1.0;
    assert (wait - least) * rate.rps >= 0.0;
  }

  // ---------- Buckets per client, with and without collection ----------

  const IDLE := 600.0  // seconds

  datatype Event = Allow(key: string, now: real) | Collect(now: real)

  function LevelOf(m: map<string, Level>, key: string): Level {
    if key in m then m[key] else Unused
  }

  datatype Asked = Asked(ips: map<string, Level>, ok: bool)

  function Ask(rate: Rate, m: map<string, Level>, key: string, now: real): Asked {
    var t := Draw(LevelOf(m, key), rate, now);
    Asked(m[key := t.level], t.ok)
  }

  /** A bucket that has not been refilled for ten minutes, or never. */
  predicate Idle(l: Level, now: real) {
    l.Unused? || l.last < now - IDLE
  }

  function Swept(m: map<string, Level>, now: real): map<string, Level> {
    map k | k in m && !Idle(m[k], now) :: m[k]
  }

  datatype Outcome = Outcome(ips: map<string, Level>, answers: seq<bool>)

  /** The limiter's answers to a run; `collecting` says whether Collect does its
      work or nothing. */
  function Replay(rate: Rate, evs: seq<Event>, collecting: bool): Outcome {
    if evs == [] then Outcome(map[], [])
    else
      var o := Replay(rate, evs[..|evs| - 1], collecting);
      match evs[|evs| - 1]
      case Allow(key, now) =>
        var a := Ask(rate, o.ips, key, now);
        Outcome(a.ips, o.answers + [a.ok])
      case Collect(now) =>
        if collecting then o.(ips := Swept(o.ips, now)) else o
  }

  predicate ClockMovesForward(evs: seq<Event>) {
    |evs| <= 1 ||
    var n := |evs| - 1;
    ClockMovesForward(evs[..n]) && evs[n - 1].now <= evs[n].now
  }

  /** The collected map agrees with the full one, except for buckets so long idle
      that they would be full again. */
  ghost predicate Similar(rate: Rate, some: map<string, Level>, all: map<string, Level>, now: real) {
    && (forall k | k in some :: k in all && some[k] == all[k])
    && (forall k | k in all :: all[k].Level? && 0.0 <= all[k].tokens)
    && (forall k | k in all && k !in some :: all[k].last < now - IDLE)
  }

  lemma FullAgain(l: Level, rate: Rate, now: real)
    requires rate.Valid() && rate.burst as real <= Gain(rate, IDLE)
    requires l.Level? && l.tokens >= 0.0 && l.last < now - IDLE
    ensures Draw(l, rate, now) == Draw(Unused, rate, now)
  {
    hide Gain;
    GainAdds(rate, IDLE, now - l.last - IDLE);
    GainSign(rate, now - l.last - IDLE);
  }

  lemma AskSimilar(rate: Rate, some: map<string, Level>, all: map<string, Level>, before: real, key: string, now: real)
    requires rate.Valid() && rate.burst as real <= Gain(rate, IDLE)
    requires Similar(rate, some, all, before) && before <= now
    ensures Ask(rate, some, key, now).ok == Ask(rate, all, key, now).ok
    ensures Similar(rate, Ask(rate, some, key, now).ips, Ask(rate, all, key, now).ips, now)
  {
    hide Gain;
    if key in all && key !in some {
      FullAgain(all[key], rate, now);
    }
    var t := Draw(LevelOf(all, key), rate, now);
    assert t.level.tokens >= 0.0 by {
      if key in all {
        GainSign(rate, now - all[key].last);
      }
    }
  }

  /** With a burst of at most ten minutes' refill, collection is invisible: over
      every interleaving of calls and sweeps on a clock that never goes back, the
      answers are those of a limiter that never collects. */
  lemma {:induction false} CollectionInvisible(rate: Rate, evs: seq<Event>)
    requires rate.Valid() && rate.burst as real <= Gain(rate, IDLE) && ClockMovesForward(evs)
    ensures Replay(rate, evs, true).answers == Replay(rate, evs, false).answers
    ensures evs != [] ==>
              Similar(rate, Replay(rate, evs, true).ips, Replay(rate, evs, false).ips, evs[|evs| - 1].now)
  {
    hide Ask, Gain;
    if evs == [] {
    } else {
      var n := |evs| - 1;
      CollectionInvisible(rate, evs[..n]);
      var some, all := Replay(rate, evs[..n], true).ips, Replay(rate, evs[..n], false).ips;
      var before := if n == 0 then evs[n].now else evs[n - 1].now;
      assert Similar(rate, some, all, before);
      if evs[n].Allow? {
        AskSimilar(rate, some, all, before, evs[n].key, evs[n].now);
      }
    }
  }

  // ---------- One client of the limiter ----------

  /** When client `key` called. */
  function Times(evs: seq<Event>, key: string): seq<real> {
    if evs == [] then []
    else
      var n := |evs| - 1;
      Times(evs[..n], key) + if evs[n].Allow? && evs[n].key == key then [evs[n].now] else []
  }

  /** How many of the answers let client `key` in. */
  function AdmittedOf(evs: seq<Event>, answers: seq<bool>, key: string): nat {
    if evs == [] || answers == [] then 0
    else
      var n, m := |evs| - 1, |answers| - 1;
      if evs[n].Collect? then AdmittedOf(evs[..n], answers, key)
      else AdmittedOf(evs[..n], answers[..m], key) + if evs[n].key == key && answers[m] then 1 else 0
  }

  lemma AskOther(rate: Rate, m: map<string, Level>, key: string, now: real, other: string)
    ensures LevelOf(Ask(rate, m, key, now).ips, other) ==
            if other == key then Draw(LevelOf(m, key), rate, now).level else LevelOf(m, other)
    ensures Ask(rate, m, key, now).ok == Draw(LevelOf(m, key), rate, now).ok
  {
    hide Draw;
  }

  lemma CallsStep(l: Level, rate: Rate, nows: seq<real>, now: real)
    ensures var t := Calls(l, rate, nows);
            var k := Draw(t.level, rate, now);
            Calls(l, rate, nows + [now]) ==
            Tally(k.level, t.admitted + (if k.ok then 1 else 0), t.spilled + Spill(t.level, rate, now))
  {
    hide Draw, Spill;
    assert (nows + [now])[..|nows|] == nows;
  }

  lemma ClientStep(evs: seq<Event>, e: Event, answers: seq<bool>, ok: bool, key: string)
    ensures var mine := e.Allow? && e.key == key;
            && Times(evs + [e], key) == (if mine then Times(evs, key) + [e.now] else Times(evs, key))
            && (e.Collect? ==> AdmittedOf(evs + [e], answers, key) == AdmittedOf(evs, answers, key))
            && (e.Allow? ==> AdmittedOf(evs + [e], answers + [ok], key) ==
                             AdmittedOf(evs, answers, key) + if mine && ok then 1 else 0)
  {
    assert (evs + [e])[..|evs|] == evs && (answers + [ok])[..|answers|] == answers;
  }

  /** In a limiter that never collects, every client has a bucket to itself: the
      calls of the others do not matter. */
  lemma {:induction false} ClientIsABucket(rate: Rate, evs: seq<Event>, key: string)
    ensures var o, c := Replay(rate, evs, false), Calls(Unused, rate, Times(evs, key));
            LevelOf(o.ips, key) == c.level && AdmittedOf(evs, o.answers, key) == c.admitted
  {
    if evs == [] {
      NobodyYet(key);
    } else {
      hide *;
      var n := |evs| - 1;
      var front, e := evs[..n], evs[n];
      assert evs == front + [e];
      ClientIsABucket(rate, front, key);
      var o := Replay(rate, front, false);
      ReplayStep(rate, front, e, false);
      if e.Allow? {
        AskOther(rate, o.ips, e.key, e.now, key);
        ClientStep(front, e, o.answers, Ask(rate, o.ips, e.key, e.now).ok, key);
        CallsStep(Unused, rate, Times(front, key), e.now);
      } else {
        ClientStep(front, e, o.answers, true, key);
      }
    }
  }

  lemma NobodyYet(key: string)
    ensures LevelOf(map[], key) == Unused
  {
  }

  /** Whatever the others do, a client is admitted at most as often as the burst
      plus the refill since its first call; with collection too, if the burst is
      at most ten minutes' refill. */
  lemma ClientBound(rate: Rate, evs: seq<Event>, key: string, collecting: bool)
    requires rate.Valid() && Times(evs, key) != []
    requires collecting ==> ClockMovesForward(evs) && rate.burst as real <= 600.0 * rate.rps
    ensures var times := Times(evs, key);
            AdmittedOf(evs, Replay(rate, evs, collecting).answers, key) as real
              <= rate.burst as real + Gain(rate, Latest(times[0], times) - times[0])
  {
    GainMeans(rate, IDLE);
    hide Gain, Calls, Replay, AdmittedOf, Times;
    ClientIsABucket(rate, evs, key);
    AdmissionBound(Unused, rate, Times(evs, key));
    if collecting {
      CollectionInvisible(rate, evs);
    }
  }

  // ---------- A longer burst makes collection visible ----------

  function Burst(key: string, now: real, n: nat): (r: seq<Event>)
    ensures |r| == n
  {
    if n == 0 then [] else Burst(key, now, n - 1) + [Allow(key, now)]
  }

  lemma ReplayStep(rate: Rate, evs: seq<Event>, e: Event, collecting: bool)
    ensures Replay(rate, evs + [e], collecting) ==
            var o := Replay(rate, evs, collecting);
            match e
            case Allow(key, now) => var a := Ask(rate, o.ips, key, now); Outcome(a.ips, o.answers + [a.ok])
            case Collect(now) => if collecting then o.(ips := Swept(o.ips, now)) else o
  {
    assert (evs + [e])[..|evs|] == evs;
  }

  lemma ClockStep(evs: seq<Event>, e: Event)
    requires ClockMovesForward(evs) && (evs != [] ==> evs[|evs| - 1].now <= e.now)
    ensures ClockMovesForward(evs + [e])
  {
    var longer := evs + [e];
    assert longer[..|evs|] == evs && longer[|evs|] == e;
    if evs != [] {
      assert longer[|evs| - 1] == evs[|evs| - 1];
    }
  }

  /** One more call on a bucket that has been refilled at `now`. */
  lemma DrainOne(rate: Rate, evs: seq<Event>, key: string, now: real, collecting: bool, left: real)
    requires Refill(LevelOf(Replay(rate, evs, collecting).ips, key), rate, now) == Level(left, now)
    ensures var o, e := Replay(rate, evs, collecting), Replay(rate, evs + [Allow(key, now)], collecting);
            && e.answers == o.answers + [left >= 1.0]
            && LevelOf(e.ips, key) == Level(if left >= 1.0 then left - 1.0 else left, now)
  {
    hide Replay;
    ReplayStep(rate, evs, Allow(key, now), collecting);
  }

  /** Whether each of `n` calls at one moment finds a whole token. */
  function Verdicts(full: real, n: nat): (r: seq<bool>)
    ensures |r| == n
  {
    if n == 0 then [] else Verdicts(full, n - 1) + [n as real <= full]
  }

  function Left(full: real, n: nat): real {
    if n == 0 then full
    else
      var l := Left(full, n - 1);
      if l >= 1.0 then l - 1.0 else l
  }

  lemma {:induction false} LeftMeaning(full: real, n: nat)
    requires full >= 0.0
    ensures if n as real <= full then Left(full, n) == full - n as real else Left(full, n) < 1.0
  {
    if n == 0 {
    } else {
      LeftMeaning(full, n - 1);
    }
  }

  /** A burst of calls at one moment, from a bucket that refills to `full`: every
      call takes a token while there is a whole one, and the rest are denied. */
  lemma {:induction false} Drain(
    rate: Rate, evs: seq<Event>, key: string, now: real, n: nat, collecting: bool, full: real)
    requires Refill(LevelOf(Replay(rate, evs, collecting).ips, key), rate, now) == Level(full, now) && full >= 0.0
    ensures var o, e := Replay(rate, evs, collecting), Replay(rate, evs + Burst(key, now, n), collecting);
            && e.answers == o.answers + Verdicts(full, n)
            && (n > 0 ==> LevelOf(e.ips, key) == Level(Left(full, n), now))
  {
    hide Replay;
    if n == 0 {
      assert evs + Burst(key, now, 0) == evs;
    } else {
      var front := evs + Burst(key, now, n - 1);
      Drain(rate, evs, key, now, n - 1, collecting, full);
      assert evs + Burst(key, now, n) == front + [Allow(key, now)];
      assert n == 1 ==> front == evs;
      LeftMeaning(full, n - 1);
      DrainOne(rate, front, key, now, collecting, Left(full, n - 1));
    }
  }

  lemma {:induction false} BurstClock(evs: seq<Event>, key: string, now: real, n: nat)
    requires ClockMovesForward(evs) && (evs != [] ==> evs[|evs| - 1].now <= now)
    ensures var all := evs + Burst(key, now, n);
            ClockMovesForward(all) && (n > 0 ==> all[|all| - 1].now == now)
  {
    hide ClockMovesForward;
    if n == 0 {
      assert evs + Burst(key, now, 0) == evs;
    } else {
      var front, e := evs + Burst(key, now, n - 1), Allow(key, now);
      BurstClock(evs, key, now, n - 1);
      assert n == 1 ==> front == evs;
      ClockStep(front, e);
      assert evs + Burst(key, now, n) == front + [e];
    }
  }

  /** Use up the burst, let a sweep pass, ask for a burst again. */
  function Probe(rate: Rate, later: real): seq<Event>
    requires rate.burst >= 0
  {
    Burst("a", 0.0, rate.burst) + [Collect(later)] + Burst("a", later, rate.burst)
  }

  lemma FirstBurst(rate: Rate, later: real, collecting: bool)
    requires rate.Valid() && later > IDLE
    ensures var o := Replay(rate, Burst("a", 0.0, rate.burst) + [Collect(later)], collecting);
            && |o.answers| == rate.burst
            && LevelOf(o.ips, "a") == if collecting then Unused else Level(0.0, 0.0)
  {
    var b := Burst("a", 0.0, rate.burst);
    assert [] + b == b;
    Drain(rate, [], "a", 0.0, rate.burst, collecting, rate.burst as real);
    LeftMeaning(rate.burst as real, rate.burst);
    ReplayStep(rate, b, Collect(later), collecting);
  }

  lemma ProbeClock(rate: Rate, later: real)
    requires rate.Valid() && later > 0.0
    ensures ClockMovesForward(Probe(rate, later))
  {
    var b := Burst("a", 0.0, rate.burst);
    assert [] + b == b;
    BurstClock([], "a", 0.0, rate.burst);
    ClockStep(b, Collect(later));
    BurstClock(b + [Collect(later)], "a", later, rate.burst);
  }

  /** The last call of the second burst finds a full bucket if there was a sweep,
      and a drained one if there was none. */
  lemma CollectionVisible(rate: Rate, later: real)
    requires rate.Valid() && later > IDLE && Gain(rate, later) < rate.burst as real
    ensures ClockMovesForward(Probe(rate, later))
    ensures Replay(rate, Probe(rate, later), true).answers != Replay(rate, Probe(rate, later), false).answers
  {
    hide Gain, Replay, ClockMovesForward;
    var evs := Burst("a", 0.0, rate.burst) + [Collect(later)];
    ProbeClock(rate, later);
    FirstBurst(rate, later, true);
    FirstBurst(rate, later, false);
    GainSign(rate, later);
    Drain(rate, evs, "a", later, rate.burst, true, rate.burst as real);
    Drain(rate, evs, "a", later, rate.burst, false, Gain(rate, later));
    var last := 2 * rate.burst - 1;
    assert Replay(rate, Probe(rate, later), true).answers[last];
    assert !Replay(rate, Probe(rate, later), false).answers[last];
  }

  /** Collection is invisible over all runs exactly when the burst is at most ten
      minutes' refill. */
  lemma CollectionInvisibleExactly(rate: Rate)
    requires rate.Valid()
    ensures rate.burst as real <= 600.0 * rate.rps <==>
            forall evs | ClockMovesForward(evs) :: Replay(rate, evs, true).answers == Replay(rate, evs, false).answers
  {
    var burst := rate.burst as real;
    GainMeans(rate, IDLE);
    hide Gain, Replay, ClockMovesForward;
    if burst <= Gain(rate, IDLE) {
      forall evs | ClockMovesForward(evs)
        ensures Replay(rate, evs, true).answers == Replay(rate, evs, false).answers
      {
        CollectionInvisible(rate, evs);
      }
    } else {
      var later := Between(rate);
      CollectionVisible(rate, later);
    }
  }

  lemma Between(rate: Rate) returns (later: real)
    requires rate.Valid() && rate.burst as real > Gain(rate, IDLE)
    ensures later > IDLE && Gain(rate, later) < rate.burst as real
  {
    var half := (rate.burst as real - Gain(rate, IDLE)) / 2.0;
    var extra := half / rate.rps;
    assert extra * rate.rps == half;
    assert extra > 0.0;
    later := IDLE + extra;
    GainAdds(rate, IDLE, extra);
  }

  // ---------- The limiter ----------

  /** NewLimiter's defaults. */
  function Configured(rps: real, burst: int): (rate: Rate)
    ensures rate.Valid()
    ensures rate.rps == if rps > 0.0 then rps else 10.0
    ensures burst > 0 ==> rate.burst == burst
    ensures burst <= 0 ==> rate.burst == if rate.rps >= 0.5 then (2.0 * rate.rps).Floor else 1
  {
    var r := if rps <= 0.0 then 10.0 else rps;
    var b := if burst <= 0 then (r * 2.0).Floor else burst;
    Rate(r, if burst <= 0 && b < 1 then 1 else b)
  }

  /** With the default burst, collection is visible only for clients allowed less
      than one request in ten minutes. */
  lemma DefaultBurst(rps: real, burst: int)
    requires burst <= 0
    ensures var rate := Configured(rps, burst);
            rate.burst as real <= 600.0 * rate.rps <==> rate.rps >= 1.0 / 600.0
  {
  }

  class Bucket {
    var tokens: real
    var last: Option<real>

    constructor ()
      ensures Now() == Unused
    {
      tokens, last := 0.0, None;
    }

    function Now(): Level
      reads this
    {
      if last.None? then Unused else Level(tokens, last.value)
    }

    method Take(rate: Rate, now: real) returns (ok: bool)
      modifies this
      ensures Taken(Now(), ok) == Draw(old(Now()), rate, now)
    {
      if last.None? {
        last := Some(now);
        tokens := rate.burst as real;
      }
      var elapsed := now - last.value;
      if elapsed > 0.0 {
        tokens := tokens + elapsed * rate.rps;
        if tokens > rate.burst as real {
          tokens := rate.burst as real;
        }
        last := Some(now);
      }
      if tokens < 1.0 {
        return false;
      }
      tokens := tokens - 1.0;
      return true;
    }
  }

  lemma AskIs(rate: Rate, m: map<string, Level>, key: string, now: real)
    ensures var t := Draw(LevelOf(m, key), rate, now); Ask(rate, m, key, now) == Asked(m[key := t.level], t.ok)
  {
  }

  class Limiter {
    const rate: Rate
    const perIP: bool
    const global: Bucket
    var ips: map<string, Bucket>

    ghost predicate Valid()
      reads this
    {
      && rate.Valid()
      && (forall k | k in ips :: ips[k] != global)
      && (forall j, k | j in ips && k in ips && j != k :: ips[j] != ips[k])
    }

    ghost function View(): map<string, Level>
      reads this, ips.Values
    {
      map k | k in ips :: ips[k].Now()
    }

    constructor (rps: real, burst: int, perIP: bool)
      ensures Valid() && rate == Configured(rps, burst) && this.perIP == perIP
      ensures View() == map[] && global.Now() == Unused && fresh(global)
    {
      rate := Configured(rps, burst);
      this.perIP := perIP;
      global := new Bucket();
      ips := map[];
    }

    method Allow(key: string, now: real) returns (ok: bool)
      requires Valid()
      modifies this`ips, ips.Values, global
      ensures Valid() && fresh(ips.Values - old(ips.Values))
      ensures perIP && key != "" ==> Asked(View(), ok) == Ask(rate, old(View()), key, now)
      ensures perIP && key == "" ==> Asked(View(), ok) == Ask(rate, old(View()), "_", now)
      ensures perIP ==> global.Now() == old(global.Now())
      ensures !perIP ==>
                View() == old(View()) && Taken(global.Now(), ok) == Draw(old(global.Now()), rate, now)
    {
      hide Draw, Ask;
      if !perIP {
        ok := global.Take(rate, now);
      } else {
        ok := Admit(if key == "" then "_" else key, now);
      }
    }

    /** A call of one client: its bucket is found and drawn from. */
    method Admit(key: string, now: real) returns (ok: bool)
      requires Valid()
      modifies this`ips, ips.Values
      ensures Valid() && fresh(ips.Values - old(ips.Values))
      ensures Asked(View(), ok) == Ask(rate, old(View()), key, now)
    {
      hide Draw, Ask, LevelOf;
      var b := Find(key);
      ghost var found := View();
      assert found[key] == b.Now() == LevelOf(old(View()), key);
      ok := b.Take(rate, now);
      assert View() == found[key := b.Now()];
      assert found[key := b.Now()] == old(View())[key := b.Now()];
      AskIs(rate, old(View()), key, now);
    }

    /** The bucket of a client, made on its first call. */
    method Find(key: string) returns (b: Bucket)
      requires Valid()
      modifies this`ips
      ensures Valid() && key in ips && b == ips[key] && fresh(ips.Values - old(ips.Values))
      ensures ips.Keys == old(ips.Keys) + {key} && forall k | k in old(ips) :: ips[k] == old(ips[k])
      ensures View() == old(View())[key := LevelOf(old(View()), key)]
    {
      if key in ips {
        b := ips[key];
      } else {
        b := new Bucket();
        ips := ips[key := b];
      }
    }

    /** One tick of gc. */
    method Sweep(now: real)
      requires Valid()
      modifies this`ips
      ensures Valid() && ips.Values <= old(ips.Values)
      ensures forall k | k in ips :: k in old(ips) && ips[k] == old(ips)[k]
      ensures forall k | k in old(ips) ::
                var last := old(ips)[k].last;
                k in ips <==> last.Some? && last.value >= now - 600.0
      ensures View() == Swept(old(View()), now)
    {
      ghost var was, all := View(), ips;
      DropIdle(now);
      forall k | k in all
        ensures k in ips <==> !Idle(was[k], now)
      {
        assert was[k] == all[k].Now();
      }
      assert View() == Swept(was, now);
    }

    method DropIdle(now: real)
      requires Valid()
      modifies this`ips
      ensures forall k | k in ips :: k in old(ips) && ips[k] == old(ips)[k]
      ensures forall k | k in old(ips) ::
                var last := old(ips)[k].last;
                k in ips <==> last.Some? && last.value >= now - 600.0
    {
      var todo := ips.Keys;
      ghost var all := ips;
      while todo != {}
        invariant forall k | k in ips :: k in all && ips[k] == all[k]
        invariant forall k | k in all ::
                    k in ips <==> k in todo || (all[k].last.Some? && all[k].last.value >= now - 600.0)
        invariant todo <= all.Keys
        decreases |todo|
      {
        var k :| k in todo;
        var b := ips[k];
        if b.last.None? || b.last.value < now - IDLE {
          ips := ips - {k};
        }
        todo := todo - {k};
      }
    }
  }
}
