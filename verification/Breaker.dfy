/** The circuit breaker kept in every backend: a three-counter machine, and its
    reading as a function of the whole event history. */
module Breaker {

  /** Failure: markFail. GoodProbe: markOK. PassiveSuccess: markSuccess. */
  datatype Event = Failure | GoodProbe | PassiveSuccess

  datatype State = State(fails: nat, okStreak: nat, alive: bool)

  const FRESH := State(0, 0, true)

  function AtLeastOne(n: int): nat {
    if n < 1 then 1 else n
  }

  /** markFail. */
  function Fail(s: State, threshold: int): State {
    State(s.fails + 1, 0, s.alive && s.fails + 1 < AtLeastOne(threshold))
  }

  /** markOK. */
  function Good(s: State, passes: int): State {
    if s.okStreak + 1 >= AtLeastOne(passes)
    then State(0, s.okStreak + 1, true)
    else s.(okStreak := s.okStreak + 1)
  }

  /** markSuccess. */
  function Clear(s: State): State {
    State(0, s.okStreak, true)
  }

  function Step(s: State, e: Event, threshold: int, passes: int): State {
    match e
    case Failure => Fail(s, threshold)
    case GoodProbe => Good(s, passes)
    case PassiveSuccess => Clear(s)
  }

  predicate Consistent(s: State, threshold: int) {
    s.alive <==> s.fails < AtLeastOne(threshold)
  }

  lemma StaysConsistent(s: State, threshold: int, passes: int)
    requires Consistent(s, threshold)
    ensures Consistent(Fail(s, threshold), threshold)
    ensures Consistent(Good(s, passes), threshold)
    ensures Consistent(Clear(s), threshold)
  {
  }

  function Run(h: seq<Event>, threshold: int, passes: int): State {
    if h == [] then FRESH
    else Step(Run(h[..|h| - 1], threshold, passes), h[|h| - 1], threshold, passes)
  }

  // ---------- The history, read without the machine ----------

  /** The good probes that no failure follows. */
  ghost function Streak(h: seq<Event>): set<nat> {
    set j: nat | j < |h| && h[j] == GoodProbe && Failure !in h[j..]
  }

  /** Event `i` forgives every failure before it: a passive success, or a good
      probe that finds the streak at `passes` or more. */
  ghost predicate Forgives(h: seq<Event>, i: nat, passes: int)
    requires i < |h|
  {
    || h[i] == PassiveSuccess
    || (h[i] == GoodProbe && |Streak(h[..i + 1])| >= passes)
  }

  /** The failures that nothing has forgiven since. */
  ghost function Unforgiven(h: seq<Event>, passes: int): set<nat> {
    set j: nat | j < |h| && h[j] == Failure && forall i: nat | j < i < |h| :: !Forgives(h, i, passes)
  }

  lemma StreakStep(h: seq<Event>, e: Event)
    ensures Streak(h + [e]) ==
            match e
            case Failure => {}
            case GoodProbe => Streak(h) + {|h|}
            case PassiveSuccess => Streak(h)
  {
    var g := h + [e];
    forall j: nat | j < |h|
      ensures g[j..] == h[j..] + [e]
    {
    }
    assert g[|h|..] == [e];
    if e == Failure {
      forall j: nat | j < |g|
        ensures j !in Streak(g)
      {
        assert g[j..][|h| - j] == Failure;
      }
    }
  }

  lemma UnforgivenStep(h: seq<Event>, e: Event, passes: int)
    ensures Unforgiven(h + [e], passes) ==
            if Forgives(h + [e], |h|, passes) then {}
            else if e == Failure then Unforgiven(h, passes) + {|h|}
            else Unforgiven(h, passes)
  {
    var g := h + [e];
    forall i: nat | i < |h|
      ensures Forgives(g, i, passes) == Forgives(h, i, passes)
    {
      assert g[..i + 1] == h[..i + 1];
    }
  }

  lemma {:induction false} RunCounts(h: seq<Event>, threshold: int, passes: int)
    ensures Run(h, threshold, passes) ==
            State(|Unforgiven(h, passes)|, |Streak(h)|, |Unforgiven(h, passes)| < AtLeastOne(threshold))
  {
    if h == [] {
      assert Unforgiven(h, passes) == {} && Streak(h) == {};
    } else {
      var g, e := h[..|h| - 1], h[|h| - 1];
      assert h == g + [e] && h[..|h|] == h;
      RunCounts(g, threshold, passes);
      StreakStep(g, e);
      UnforgivenStep(g, e, passes);
    }
  }

  /** The machine refines its history: `okStreak` counts the good probes since
      the last failure, `fails` the unforgiven failures, and the backend is
      alive exactly when none or fewer than the threshold are unforgiven. */
  lemma RunMeansHistory(h: seq<Event>, threshold: int, passes: int)
    ensures Run(h, threshold, passes) ==
            State(|Unforgiven(h, passes)|, |Streak(h)|,
                  Unforgiven(h, passes) == {} || |Unforgiven(h, passes)| < threshold)
  {
    hide Unforgiven, Streak, Run;
    RunCounts(h, threshold, passes);
  }

  function GoodProbes(h: seq<Event>): nat {
    if h == [] then 0
    else GoodProbes(h[..|h| - 1]) + if h[|h| - 1] == GoodProbe then 1 else 0
  }

  /** Whatever happened before, `passes` good probes with no failure among them
      leave the backend alive with a clean record. */
  lemma {:induction false} Recovers(h: seq<Event>, quiet: seq<Event>, threshold: int, passes: int)
    requires Failure !in quiet
    ensures var s := Run(h + quiet, threshold, passes);
            && s.okStreak >= GoodProbes(quiet)
            && (GoodProbes(quiet) >= 1 && GoodProbes(quiet) >= passes ==> s.alive && s.fails == 0)
  {
    if quiet == [] {
    } else {
      var q := quiet[..|quiet| - 1];
      assert (h + quiet)[..|h + quiet| - 1] == h + q;
      Recovers(h, q, threshold, passes);
    }
  }

  /** From any history, as many failures in a row as the threshold kill the backend. */
  lemma {:induction false} Trips(h: seq<Event>, burst: seq<Event>, threshold: int, passes: int)
    requires forall i | 0 <= i < |burst| :: burst[i] == Failure
    ensures var s := Run(h + burst, threshold, passes);
            && s.fails == Run(h, threshold, passes).fails + |burst|
            && (|burst| >= 1 && |burst| >= threshold ==> !s.alive)
  {
    if burst == [] {
      assert h + burst == h;
    } else {
      var q := burst[..|burst| - 1];
      assert (h + burst)[..|h + burst| - 1] == h + q;
      Trips(h, q, threshold, passes);
    }
  }

  // ---------- Which threshold each caller passes ----------

  /** The retry loop: 3 unless health checks are on with a positive count. */
  function PassiveThreshold(checksOn: bool, fails: int): int {
    if checksOn && fails > 0 then fails else 3
  }

  /** The health checker hands the configured count to markFail as it is. */
  function ActiveThreshold(fails: int): int {
    fails
  }

  /** While checks run, both callers kill at the same count exactly when the
      configured count is positive, which normalisation guarantees. */
  lemma ThresholdsAgree(fails: int)
    ensures PassiveThreshold(true, fails) == (if fails > 0 then fails else 3) && PassiveThreshold(false, fails) == 3
    ensures AtLeastOne(PassiveThreshold(true, fails)) == AtLeastOne(ActiveThreshold(fails)) <==> fails > 0
  {
  }
}
