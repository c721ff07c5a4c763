/** Hot reload as interleaved steps. Every admin write triggers two calls of
    Reload, which may run side by side; each builds a new set of handlers, swaps it
    in under the engine's lock, retires the old set and restarts the health
    checker outside that lock. Reloads are numbered; 0 is the empty engine. */
module HotReload {
  import opened Text

  datatype Stage =
    | Built                          // handlers made, their limiters running
    | Retiring(prev: nat, i: nat)     // swapped in; `i` limiters of the old set stopped
    | Waiting                        // about to lock the health checker
    | Holding                        // it is locked and its stop channel closed
    | Spawning(chan: nat, i: nat)    // a new channel, unlocked; `i` checkers started
    | Done

  datatype Reload = Reload(limiters: nat, targets: nat, stage: Stage)

  datatype Checker = Checker(gen: nat, target: nat, chan: nat)

  datatype State = State(
    reloads: map<nat, Reload>,
    routes: nat,
    cfg: nat,
    stopped: map<nat, nat>,     // how many limiters of each set are stopped
    closed: seq<bool>,          // the stop channels so far; the last is current
    owner: seq<nat>,            // who made each channel
    locked: bool,
    checkers: set<Checker>)

  datatype Action =
    | Start(g: nat, limiters: nat, targets: nat)
    | Swap(g: nat)
    | StopLimiter(g: nat)
    | Retired(g: nat)
    | Lock(g: nat)
    | Renew(g: nat)
    | Spawn(g: nat)
    | Finish(g: nat)
    | Exit(k: Checker)

  const INITIAL := State(map[0 := Reload(0, 0, Done)], 0, 0, map[0 := 0], [false], [0], false, {})

  predicate At(s: State, g: nat) {
    g in s.reloads
  }

  predicate Enabled(s: State, a: Action) {
    match a
    case Start(g, limiters, targets) => !At(s, g)
    case Swap(g) => At(s, g) && s.reloads[g].stage.Built?
    case StopLimiter(g) =>
      && At(s, g) && s.reloads[g].stage.Retiring? && At(s, s.reloads[g].stage.prev)
      && s.reloads[g].stage.i < s.reloads[s.reloads[g].stage.prev].limiters
    case Retired(g) =>
      && At(s, g) && s.reloads[g].stage.Retiring? && At(s, s.reloads[g].stage.prev)
      && s.reloads[g].stage.i == s.reloads[s.reloads[g].stage.prev].limiters
    case Lock(g) => At(s, g) && s.reloads[g].stage.Waiting? && !s.locked && s.closed != []
    case Renew(g) => At(s, g) && s.reloads[g].stage.Holding? && s.checkers == {}
    case Spawn(g) => At(s, g) && s.reloads[g].stage.Spawning? && s.reloads[g].stage.i < s.reloads[g].targets
    case Finish(g) => At(s, g) && s.reloads[g].stage.Spawning? && s.reloads[g].stage.i == s.reloads[g].targets
    case Exit(k) => k in s.checkers && k.chan < |s.closed| && s.closed[k.chan]
  }

  function Moved(s: State, g: nat, stage: Stage): State
    requires At(s, g)
  {
    s.(reloads := s.reloads[g := s.reloads[g].(stage := stage)])
  }

  function Apply(s: State, a: Action): State
    requires Enabled(s, a)
  {
    match a
    case Start(g, limiters, targets) =>
      s.(reloads := s.reloads[g := Reload(limiters, targets, Built)], stopped := s.stopped[g := 0])
    case Swap(g) =>
      Moved(s, g, Retiring(s.routes, 0)).(routes := g, cfg := g)
    case StopLimiter(g) =>
      var t := s.reloads[g].stage;
      Moved(s, g, Retiring(t.prev, t.i + 1)).(stopped := s.stopped[t.prev := t.i + 1])
    case Retired(g) =>
      Moved(s, g, Waiting)
    case Lock(g) =>
      Moved(s, g, Holding).(locked := true, closed := s.closed[|s.closed| - 1 := true])
    case Renew(g) =>
      Moved(s, g, Spawning(|s.closed|, 0)).(locked := false, closed := s.closed + [false], owner := s.owner + [g])
    case Spawn(g) =>
      var t := s.reloads[g].stage;
      Moved(s, g, Spawning(t.chan, t.i + 1)).(checkers := s.checkers + {Checker(g, t.i, t.chan)})
    case Finish(g) =>
      Moved(s, g, Done)
    case Exit(k) =>
      s.(checkers := s.checkers - {k})
  }

  predicate Valid(acts: seq<Action>)
    decreases |acts|, 0
  {
    acts == [] ||
    var n := |acts| - 1;
    Valid(acts[..n]) && Enabled(After(acts[..n]), acts[n])
  }

  function After(acts: seq<Action>): State
    requires Valid(acts)
    decreases |acts|, 1
  {
    if acts == [] then INITIAL
    else
      var n := |acts| - 1;
      Apply(After(acts[..n]), acts[n])
  }

  // ---------- Invariants ----------

  predicate Retires(s: State, r: nat, g: nat) {
    At(s, r) && s.reloads[r].stage.Retiring? && s.reloads[r].stage.prev == g
  }

  /** Routes and configuration come from one reload; a set being retired is
      neither new nor current, is held by one reload only, and as many of its
      limiters are stopped as that reload has counted. */
  ghost predicate Retirement(s: State) {
    && s.cfg == s.routes && At(s, s.routes) && !s.reloads[s.routes].stage.Built?
    && s.stopped.Keys == s.reloads.Keys
    && (forall r, g | Retires(s, r, g) ::
          && At(s, g) && !s.reloads[g].stage.Built? && g != s.routes
          && s.stopped[g] == s.reloads[r].stage.i <= s.reloads[g].limiters)
    && (forall r, r', g | Retires(s, r, g) && Retires(s, r', g) :: r == r')
  }

  /** A set that is not yet swapped in, or is current, has no limiter stopped; any
      other set is being retired by some reload or has all its limiters stopped. */
  ghost predicate Fate(s: State, g: nat)
    requires At(s, g) && g in s.stopped
  {
    if s.reloads[g].stage.Built? || g == s.routes then s.stopped[g] == 0
    else (exists r :: Retires(s, r, g)) || s.stopped[g] == s.reloads[g].limiters
  }

  ghost predicate Handlers(s: State) {
    Retirement(s) && forall g | At(s, g) :: Fate(s, g)
  }

  function Last(s: State): nat
    requires s.closed != []
  {
    |s.closed| - 1
  }

  /** Every stop channel but the current one is closed, and the current one is
      open unless a reload holds the checker's lock. */
  ghost predicate Channels(s: State) {
    && s.closed != [] && |s.owner| == |s.closed|
    && (forall c | 0 <= c < Last(s) :: s.closed[c])
    && s.closed[Last(s)] == s.locked
    && (forall g | At(s, g) :: s.reloads[g].stage.Holding? ==> s.locked)
    && (forall g, g' | At(s, g) && At(s, g') :: s.reloads[g].stage.Holding? && s.reloads[g'].stage.Holding? ==> g == g')
  }

  function Started(r: Reload): nat {
    if r.stage.Spawning? then r.stage.i else r.targets
  }

  /** On the current channel run the checkers its owner has started, all of them
      and no others, as long as it is open. */
  ghost predicate Checkers(s: State) {
    && s.closed != [] && |s.owner| == |s.closed|
    && (forall k | k in s.checkers :: k.chan < |s.closed|)
    && (forall g | At(s, g) && s.reloads[g].stage.Spawning? ::
          s.reloads[g].stage.chan < |s.closed| && s.owner[s.reloads[g].stage.chan] == g)
    && At(s, s.owner[Last(s)])
    && (!s.locked ==>
          var g := s.owner[Last(s)];
          && (s.reloads[g].stage.Done? || s.reloads[g].stage.Spawning?)
          && (s.reloads[g].stage.Spawning? ==> s.reloads[g].stage.chan == Last(s))
          && forall k: Checker :: k.chan == Last(s) ==>
               (k in s.checkers <==> k.gen == g && k.target < Started(s.reloads[g])))
  }

  ghost predicate Inv(s: State) {
    Handlers(s) && Channels(s) && Checkers(s)
  }

  lemma StepRetirement(s: State, a: Action)
    requires Retirement(s) && Enabled(s, a)
    requires a.Swap? ==> forall r :: !Retires(s, r, s.routes)
    requires a.Swap? ==> s.stopped[s.routes] == 0
    ensures Retirement(Apply(s, a))
  {
    var t := Apply(s, a);
    forall r, g | Retires(t, r, g)
      ensures Retires(s, r, g) || (a.Swap? && r == a.g && g == s.routes)
    {
    }
    if a.StopLimiter? {
      assert Retires(s, a.g, s.reloads[a.g].stage.prev);
    }
  }

  lemma StepFate(s: State, a: Action, g: nat)
    requires Handlers(s) && Enabled(s, a) && At(Apply(s, a), g) && g in Apply(s, a).stopped
    ensures Fate(Apply(s, a), g)
  {
    var t := Apply(s, a);
    if a.Swap? && g == s.routes {
      assert Fate(s, g) && Retires(t, a.g, g);
    } else if a.StopLimiter? && g == s.reloads[a.g].stage.prev {
      assert Retires(s, a.g, g) && Retires(t, a.g, g);
    } else if At(s, g) {
      assert Fate(s, g);
      if exists r :: Retires(s, r, g) {
        var r :| Retires(s, r, g);
        assert Retires(t, r, g) || (a.Retired? && r == a.g);
      }
    }
  }

  lemma StepHandlers(s: State, a: Action)
    requires Handlers(s) && Enabled(s, a)
    ensures Handlers(Apply(s, a))
  {
    hide Enabled, Apply;
    assert Fate(s, s.routes);
    StepRetirement(s, a);
    forall g | At(Apply(s, a), g)
      ensures Fate(Apply(s, a), g)
    {
      StepFate(s, a, g);
    }
  }

  lemma StepChannels(s: State, a: Action)
    requires Channels(s) && Enabled(s, a)
    ensures Channels(Apply(s, a))
  {
  }

  lemma StepCheckers(s: State, a: Action)
    requires Channels(s) && Checkers(s) && Enabled(s, a)
    ensures Checkers(Apply(s, a))
  {
    var t := Apply(s, a);
    var g := t.owner[Last(t)];
    if a.Renew? {
      assert Last(t) == |s.closed| && g == a.g;
    } else {
      assert Last(t) == Last(s) && t.owner == s.owner;
    }
    if !t.locked {
      forall k: Checker | k.chan == Last(t)
        ensures k in t.checkers <==> k.gen == g && k.target < Started(t.reloads[g])
      {
      }
    }
  }

  /** In every reachable state, however reloads and checkers interleave. */
  lemma {:induction false} EveryReachableState(acts: seq<Action>)
    requires Valid(acts)
    ensures Inv(After(acts))
  {
    if acts == [] {
    } else {
      var n := |acts| - 1;
      EveryReachableState(acts[..n]);
      StepHandlers(After(acts[..n]), acts[n]);
      StepChannels(After(acts[..n]), acts[n]);
      StepCheckers(After(acts[..n]), acts[n]);
    }
  }

  // ---------- Once quiet ----------

  /** No reload is under way and every stopped checker has left. */
  ghost predicate Quiet(s: State) {
    && (forall g | At(s, g) :: s.reloads[g].stage.Done?)
    && (forall k | k in s.checkers :: k.chan < |s.closed| ==> !s.closed[k.chan])
  }

  ghost predicate SpawnsBounded(s: State) {
    forall g | At(s, g) && s.reloads[g].stage.Spawning? :: s.reloads[g].stage.i <= s.reloads[g].targets
  }

  lemma StepSpawns(s: State, a: Action)
    requires Enabled(s, a) && SpawnsBounded(s)
    ensures SpawnsBounded(Apply(s, a))
  {
  }

  lemma {:induction false} SpawnsStayBounded(acts: seq<Action>)
    requires Valid(acts)
    ensures SpawnsBounded(After(acts))
  {
    hide Enabled, Apply;
    if acts == [] {
    } else {
      var n := |acts| - 1;
      SpawnsStayBounded(acts[..n]);
      StepSpawns(After(acts[..n]), acts[n]);
    }
  }

  /** While a reload holds the lock, either a stopped checker can still leave or the
      holder can go on. */
  lemma LockMovesOn(s: State, g: nat) returns (a: Action)
    requires Channels(s) && Checkers(s) && s.locked && At(s, g) && s.reloads[g].stage.Holding?
    ensures !a.Start? && Enabled(s, a)
  {
    if s.checkers == {} {
      a := Renew(g);
    } else {
      var k :| k in s.checkers;
      assert s.closed[k.chan];
      a := Exit(k);
    }
  }

  lemma ReloadMovesOn(s: State, g: nat) returns (a: Action)
    requires Inv(s) && SpawnsBounded(s) && !s.locked && At(s, g) && !s.reloads[g].stage.Done?
    ensures !a.Start? && Enabled(s, a)
  {
    hide Checkers, Fate;
    match s.reloads[g].stage
    case Built =>
      a := Swap(g);
    case Retiring(prev, i) =>
      assert Retires(s, g, prev);
      a := if i < s.reloads[prev].limiters then StopLimiter(g) else Retired(g);
    case Waiting =>
      a := Lock(g);
    case Holding =>
      assert false;
    case Spawning(chan, i) =>
      a := if i < s.reloads[g].targets then Spawn(g) else Finish(g);
  }

  /** No interleaving of reloads gets stuck: in every reachable state nothing but a
      new reload can happen exactly when all is quiet. */
  lemma StuckOnlyWhenQuiet(acts: seq<Action>)
    requires Valid(acts)
    ensures (forall a: Action | !a.Start? :: !Enabled(After(acts), a)) <==> Quiet(After(acts))
  {
    hide *;
    EveryReachableState(acts);
    NotLockedWhenQuiet(acts);
    SpawnsStayBounded(acts);
    StuckExactly(After(acts));
  }

  lemma StuckExactly(s: State)
    requires Inv(s) && SpawnsBounded(s)
    requires s.locked ==> exists g :: At(s, g) && s.reloads[g].stage.Holding?
    ensures (forall a: Action | !a.Start? :: !Enabled(s, a)) <==> Quiet(s)
  {
    if Quiet(s) {
      QuietDisables(s);
    } else {
      hide Handlers, Enabled, SpawnsBounded;
      if s.locked {
        var g :| At(s, g) && s.reloads[g].stage.Holding?;
        var a := LockMovesOn(s, g);
      } else if g :| At(s, g) && !s.reloads[g].stage.Done? {
        var a := ReloadMovesOn(s, g);
      } else {
        var k :| k in s.checkers && k.chan < |s.closed| && s.closed[k.chan];
        CheckerMovesOn(s, k);
      }
    }
  }

  lemma CheckerMovesOn(s: State, k: Checker)
    requires k in s.checkers && k.chan < |s.closed| && s.closed[k.chan]
    ensures Enabled(s, Exit(k))
  {
  }

  lemma QuietDisables(s: State)
    requires Quiet(s)
    ensures forall a: Action | !a.Start? :: !Enabled(s, a)
  {
  }

  datatype PoolId = PoolId(gen: nat, target: nat)

  ghost function Checked(s: State): set<PoolId> {
    set k | k in s.checkers :: PoolId(k.gen, k.target)
  }

  ghost function Served(s: State, g: nat): set<PoolId>
    requires At(s, g)
  {
    set i | 0 <= i < s.reloads[g].targets :: PoolId(g, i)
  }

  /** Once quiet, the pools under check are those of the reload that renewed the
      stop channel last. */
  lemma QuietChecks(s: State)
    requires Inv(s) && Quiet(s) && !s.locked
    ensures At(s, s.owner[Last(s)]) && Checked(s) == Served(s, s.owner[Last(s)])
  {
    var g := s.owner[Last(s)];
    forall k | k in s.checkers
      ensures k.chan == Last(s)
    {
    }
    forall p
      ensures p in Checked(s) <==> p in Served(s, g)
    {
      if p in Served(s, g) {
        assert Checker(p.gen, p.target, Last(s)) in s.checkers;
      }
    }
  }

  lemma {:induction false} NotLockedWhenQuiet(acts: seq<Action>)
    requires Valid(acts)
    ensures After(acts).locked ==> exists g :: At(After(acts), g) && After(acts).reloads[g].stage.Holding?
  {
    if acts == [] {
    } else {
      var n := |acts| - 1;
      NotLockedWhenQuiet(acts[..n]);
      EveryReachableState(acts[..n]);
      var s, t := After(acts[..n]), After(acts);
      if t.locked {
        if acts[n].Lock? {
          assert t.reloads[acts[n].g].stage.Holding?;
        } else {
          var g :| At(s, g) && s.reloads[g].stage.Holding?;
          assert t.reloads[g].stage.Holding?;
        }
      }
    }
  }

  /** The reload that swapped its routes in last. */
  function LastSwap(acts: seq<Action>): nat {
    if acts == [] then 0
    else
      var a := acts[|acts| - 1];
      if a.Swap? then a.g else LastSwap(acts[..|acts| - 1])
  }

  /** The reload that renewed the stop channel last. */
  function LastRenew(acts: seq<Action>): nat {
    if acts == [] then 0
    else
      var a := acts[|acts| - 1];
      if a.Renew? then a.g else LastRenew(acts[..|acts| - 1])
  }

  lemma StepOwners(s: State, a: Action)
    requires Enabled(s, a) && s.owner != []
    ensures var t := Apply(s, a);
            && t.routes == (if a.Swap? then a.g else s.routes)
            && t.owner != [] && t.owner[|t.owner| - 1] == if a.Renew? then a.g else s.owner[|s.owner| - 1]
  {
  }

  lemma {:induction false} LastOnes(acts: seq<Action>)
    requires Valid(acts)
    ensures var s := After(acts);
            s.routes == LastSwap(acts) && s.owner != [] && s.owner[|s.owner| - 1] == LastRenew(acts)
  {
    hide Enabled, Apply;
    if acts == [] {
    } else {
      var n := |acts| - 1;
      LastOnes(acts[..n]);
      StepOwners(After(acts[..n]), acts[n]);
    }
  }

  /** Once quiet, the checked pools are the served ones exactly when the last swap
      and the last renewal of the run belong to one reload, or neither of their
      reloads has anything to check. */
  lemma CheckedAreServedExactly(acts: seq<Action>)
    requires Valid(acts) && Quiet(After(acts))
    ensures var s, g, r := After(acts), LastSwap(acts), LastRenew(acts);
            && s.routes == g && At(s, g) && At(s, r)
            && (Checked(s) == Served(s, g) <==> g == r || s.reloads[g].targets == s.reloads[r].targets == 0)
  {
    hide LastSwap, LastRenew;
    EveryReachableState(acts);
    NotLockedWhenQuiet(acts);
    LastOnes(acts);
    var s := After(acts);
    QuietChecks(s);
    var g := s.owner[Last(s)];
    if g != s.routes {
      if s.reloads[g].targets > 0 {
        assert PoolId(g, 0) in Served(s, g) && PoolId(g, 0) !in Served(s, s.routes);
      }
      if s.reloads[s.routes].targets > 0 {
        assert PoolId(s.routes, 0) in Served(s, s.routes) && PoolId(s.routes, 0) !in Served(s, g);
      }
    }
  }

  // ---------- One reload at a time ----------

  /** A reload starts only when every earlier one is done. */
  ghost predicate OneByOne(acts: seq<Action>)
    requires Valid(acts)
  {
    acts == [] ||
    var n := |acts| - 1;
    && OneByOne(acts[..n])
    && (acts[n].Start? ==> forall g | At(After(acts[..n]), g) :: After(acts[..n]).reloads[g].stage.Done?)
  }

  /** At most one reload is under way; until it swaps, the channel belongs to the
      current routes, and after it renews, so it does again. */
  ghost predicate InStep(s: State) {
    && s.owner != []
    && (forall g, g' | At(s, g) && At(s, g') :: !s.reloads[g].stage.Done? && !s.reloads[g'].stage.Done? ==> g == g')
    && (forall g | At(s, g) ::
          match s.reloads[g].stage
          case Built => s.owner[|s.owner| - 1] == s.routes
          case Retiring(_, _) => s.routes == g
          case Waiting => s.routes == g
          case Holding => s.routes == g
          case Spawning(_, _) => s.routes == g == s.owner[|s.owner| - 1]
          case Done => true)
    && ((forall g | At(s, g) :: s.reloads[g].stage.Done?) ==> s.owner[|s.owner| - 1] == s.routes)
  }

  lemma StepInStep(s: State, a: Action)
    requires InStep(s) && Enabled(s, a)
    requires a.Start? ==> forall g | At(s, g) :: s.reloads[g].stage.Done?
    ensures InStep(Apply(s, a))
  {
    var t := Apply(s, a);
    if !a.Exit? && !a.Finish? {
      assert !t.reloads[a.g].stage.Done?;
    }
    if a.Exit? {
      assert t.reloads == s.reloads;
    }
  }

  lemma {:induction false} SerialInStep(acts: seq<Action>)
    requires Valid(acts) && OneByOne(acts)
    ensures InStep(After(acts))
  {
    if acts == [] {
    } else {
      var n := |acts| - 1;
      SerialInStep(acts[..n]);
      StepInStep(After(acts[..n]), acts[n]);
    }
  }

  /** All running checkers were started by the reload that renewed the channel last. */
  ghost predicate OneGeneration(s: State) {
    s.owner != [] && forall k | k in s.checkers :: k.gen == s.owner[|s.owner| - 1]
  }

  lemma StepOneGeneration(s: State, a: Action)
    requires OneGeneration(s) && InStep(s) && Enabled(s, a)
    ensures OneGeneration(Apply(s, a))
  {
  }

  /** Because the checker waits for the old ones before it goes on: with reloads one at
      a time, checkers of two generations never run side by side. */
  lemma {:induction false} SerialCheckersAreOneGeneration(acts: seq<Action>)
    requires Valid(acts) && OneByOne(acts)
    ensures OneGeneration(After(acts))
  {
    hide Enabled, Apply, InStep;
    if acts == [] {
    } else {
      var n := |acts| - 1;
      SerialCheckersAreOneGeneration(acts[..n]);
      SerialInStep(acts[..n]);
      StepOneGeneration(After(acts[..n]), acts[n]);
    }
  }

  /** If reloads run one at a time then, once quiet, exactly the served pools that
      want checks are checked. */
  lemma SerialReloadsCheckWhatTheyServe(acts: seq<Action>)
    requires Valid(acts) && OneByOne(acts) && Quiet(After(acts))
    ensures At(After(acts), After(acts).routes)
    ensures Checked(After(acts)) == Served(After(acts), After(acts).routes)
  {
    SerialInStep(acts);
    LastOnes(acts);
    CheckedAreServedExactly(acts);
  }

  // ---------- Two reloads side by side ----------

  lemma Append(acts: seq<Action>, a: Action)
    requires Valid(acts) && Enabled(After(acts), a)
    ensures Valid(acts + [a]) && After(acts + [a]) == Apply(After(acts), a)
  {
    assert (acts + [a])[..|acts|] == acts;
  }

  lemma Origin()
    ensures Valid([]) && After([]) == INITIAL
  {
  }

  /** The state while reloads 1 and 2, with one checked pool each, are about. */
  function Pair(one: Stage, two: Stage, routes: nat, closed: seq<bool>, owner: seq<nat>, locked: bool,
                checkers: set<Checker>): State {
    State(map[0 := Reload(0, 0, Done), 1 := Reload(0, 1, one), 2 := Reload(0, 1, two)],
          routes, routes, map[0 := 0, 1 := 0, 2 := 0], closed, owner, locked, checkers)
  }

  lemma OneBuilt() returns (acts: seq<Action>)
    ensures Valid(acts)
    ensures After(acts) == State(map[0 := Reload(0, 0, Done), 1 := Reload(0, 1, Built)],
                                 0, 0, map[0 := 0, 1 := 0], [false], [0], false, {})
  {
    hide After, Valid;
    Origin();
    Append([], Start(1, 0, 1));
    acts := [] + [Start(1, 0, 1)];
  }

  lemma BothBuilt() returns (acts: seq<Action>)
    ensures Valid(acts) && After(acts) == Pair(Built, Built, 0, [false], [0], false, {})
  {
    hide After, Valid;
    acts := OneBuilt();
    Append(acts, Start(2, 0, 1));
    acts := acts + [Start(2, 0, 1)];
  }

  lemma BothSwapped() returns (acts: seq<Action>)
    ensures Valid(acts)
    ensures After(acts) == Pair(Retiring(0, 0), Retiring(1, 0), 2, [false], [0], false, {})
  {
    hide After, Valid;
    acts := BothBuilt();
    Append(acts, Swap(1));
    acts := acts + [Swap(1)];
    Append(acts, Swap(2));
    acts := acts + [Swap(2)];
  }

  lemma BothWait() returns (acts: seq<Action>)
    ensures Valid(acts) && After(acts) == Pair(Waiting, Waiting, 2, [false], [0], false, {})
  {
    hide After, Valid;
    acts := BothSwapped();
    Append(acts, Retired(1));
    acts := acts + [Retired(1)];
    Append(acts, Retired(2));
    acts := acts + [Retired(2)];
  }

  lemma LaterOneRenews() returns (acts: seq<Action>)
    ensures Valid(acts)
    ensures After(acts) == Pair(Waiting, Spawning(1, 0), 2, [true, false], [0, 2], false, {})
  {
    hide After, Valid;
    acts := BothWait();
    Append(acts, Lock(2));
    acts := acts + [Lock(2)];
    Append(acts, Renew(2));
    acts := acts + [Renew(2)];
  }

  lemma LaterOneChecks() returns (acts: seq<Action>)
    ensures Valid(acts)
    ensures After(acts) == Pair(Waiting, Done, 2, [true, false], [0, 2], false, {Checker(2, 0, 1)})
  {
    hide After, Valid;
    acts := LaterOneRenews();
    Append(acts, Spawn(2));
    acts := acts + [Spawn(2)];
    Append(acts, Finish(2));
    acts := acts + [Finish(2)];
  }

  lemma EarlierOneRenews() returns (acts: seq<Action>)
    ensures Valid(acts)
    ensures After(acts) == Pair(Spawning(2, 0), Done, 2, [true, true, false], [0, 2, 1], false, {})
  {
    hide After, Valid;
    acts := LaterOneChecks();
    Append(acts, Lock(1));
    acts := acts + [Lock(1)];
    Append(acts, Exit(Checker(2, 0, 1)));
    acts := acts + [Exit(Checker(2, 0, 1))];
    Append(acts, Renew(1));
    acts := acts + [Renew(1)];
  }

  /** When the reload that swapped first is the last to reset the checker, its
      retired pool stays under check and the served pool is never checked. */
  lemma OvertakenReload() returns (acts: seq<Action>)
    ensures Valid(acts) && Quiet(After(acts)) && After(acts).routes == 2 && At(After(acts), 2)
    ensures Checked(After(acts)) == {PoolId(1, 0)} && Served(After(acts), 2) == {PoolId(2, 0)}
  {
    hide After, Valid;
    acts := EarlierOneRenews();
    Append(acts, Spawn(1));
    acts := acts + [Spawn(1)];
    Append(acts, Finish(1));
    acts := acts + [Finish(1)];
    var s := After(acts);
    assert s == Pair(Done, Done, 2, [true, true, false], [0, 2, 1], false, {Checker(1, 0, 2)});
    assert Checked(s) == {PoolId(1, 0)};
  }
}
