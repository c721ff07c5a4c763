/** Limiter.Allow as the two steps it takes under different locks: finding the
    client's bucket, and drawing from it. Sweeps may come in between. */
module LimiterSteps {
  import opened Limiters

  /** Buckets are numbered in the order they were made; the map holds those that can
      still be found. */
  datatype Store = Store(ips: map<string, nat>, buckets: seq<Level>) {
    ghost predicate Valid() {
      && (forall k | k in ips :: ips[k] < |buckets|)
      && (forall j, k | j in ips && k in ips && j != k :: ips[j] != ips[k])
    }

    function View(): map<string, Level>
      requires Valid()
    {
      map k | k in ips :: buckets[ips[k]]
    }
  }

  datatype Move = Find(key: string) | Take(id: nat, now: real) | Sweep(now: real)

  function Found(s: Store, key: string): (f: Store)
    requires s.Valid()
    ensures f.Valid() && key in f.ips && f.View() == s.View()[key := LevelOf(s.View(), key)]
  {
    if key in s.ips then s else Store(s.ips[key := |s.buckets|], s.buckets + [Unused])
  }

  function Drawn(rate: Rate, s: Store, id: nat, now: real): (d: Store)
    requires s.Valid() && id < |s.buckets|
    ensures d.Valid()
  {
    s.(buckets := s.buckets[id := Draw(s.buckets[id], rate, now).level])
  }

  function Cleaned(s: Store, now: real): (c: Store)
    requires s.Valid()
    ensures c.Valid() && c.View() == Swept(s.View(), now)
  {
    s.(ips := map k | k in s.ips && !Idle(s.buckets[s.ips[k]], now) :: s.ips[k])
  }

  /** With nothing in between, the two steps are one call. */
  lemma FindThenTakeIsAsk(rate: Rate, s: Store, key: string, now: real)
    requires s.Valid()
    ensures var f := Found(s, key);
            var id := f.ips[key];
            && Drawn(rate, f, id, now).View() == Ask(rate, s.View(), key, now).ips
            && Draw(f.buckets[id], rate, now).ok == Ask(rate, s.View(), key, now).ok
  {
    hide Draw, Found;
    var f := Found(s, key);
    var id := f.ips[key];
    assert f.View()[key] == f.buckets[id] == LevelOf(s.View(), key);
    DrawnAt(rate, f, key, now);
  }

  lemma DrawnAt(rate: Rate, f: Store, key: string, now: real)
    requires f.Valid() && key in f.ips
    ensures Drawn(rate, f, f.ips[key], now).View() == f.View()[key := Draw(f.View()[key], rate, now).level]
  {
    hide Draw;
    var d := Drawn(rate, f, f.ips[key], now);
    assert d.View().Keys == f.View().Keys;
  }

  /** With a sweep in between, the limiter remembers the draw exactly when the bucket
      found was not idle at the sweep; the bucket of a new client always is. */
  lemma DrawIsRememberedExactly(rate: Rate, s: Store, key: string, swept: real, now: real)
    requires s.Valid()
    ensures var f := Found(s, key);
            var id := f.ips[key];
            && (LevelOf(Drawn(rate, Cleaned(f, swept), id, now).View(), key) == Draw(f.buckets[id], rate, now).level
                <==> !Idle(f.buckets[id], swept))
            && (key !in s.ips ==> Idle(f.buckets[id], swept))
  {
    hide Draw;
    var f := Found(s, key);
    var id := f.ips[key];
    var c := Cleaned(f, swept);
    assert key in c.ips <==> !Idle(f.buckets[id], swept);
  }

  // ---------- A client who gains a token ----------

  /** `pending` are the buckets that calls under way have found but not drawn from. */
  datatype Progress = Progress(store: Store, pending: multiset<nat>, admitted: nat)

  predicate Enabled(p: Progress, m: Move) {
    m.Take? ==> m.id in p.pending && m.id < |p.store.buckets|
  }

  function Apply(rate: Rate, p: Progress, m: Move): (q: Progress)
    requires p.store.Valid() && Enabled(p, m)
    ensures q.store.Valid()
  {
    match m
    case Find(key) =>
      var f := Found(p.store, key);
      p.(store := f, pending := p.pending + multiset{f.ips[key]})
    case Take(id, now) =>
      Progress(Drawn(rate, p.store, id, now), p.pending - multiset{id},
               p.admitted + if Draw(p.store.buckets[id], rate, now).ok then 1 else 0)
    case Sweep(now) => p.(store := Cleaned(p.store, now))
  }

  predicate Playable(rate: Rate, moves: seq<Move>)
    decreases |moves|, 0
  {
    moves == [] ||
    var n := |moves| - 1;
    Playable(rate, moves[..n]) && Enabled(After(rate, moves[..n]), moves[n])
  }

  function After(rate: Rate, moves: seq<Move>): (p: Progress)
    requires Playable(rate, moves)
    ensures p.store.Valid()
    decreases |moves|, 1
  {
    if moves == [] then Progress(Store(map[], []), multiset{}, 0)
    else
      var n := |moves| - 1;
      Apply(rate, After(rate, moves[..n]), moves[n])
  }

  lemma Append(rate: Rate, moves: seq<Move>, m: Move)
    requires Playable(rate, moves) && Enabled(After(rate, moves), m)
    ensures Playable(rate, moves + [m]) && After(rate, moves + [m]) == Apply(rate, After(rate, moves), m)
  {
    assert (moves + [m])[..|moves|] == moves;
  }

  lemma Nothing(rate: Rate)
    ensures Playable(rate, []) && After(rate, []) == Progress(Store(map[], []), multiset{}, 0)
  {
  }

  predicate AtOnce(moves: seq<Move>) {
    forall m | m in moves && !m.Find? :: m.now == 0.0
  }

  /** A new client's bucket is found, swept and drawn from. */
  lemma LoseTheFirst(rate: Rate) returns (moves: seq<Move>)
    requires rate.Valid()
    ensures Playable(rate, moves) && AtOnce(moves)
    ensures After(rate, moves) == Progress(Store(map[], [Level(rate.burst as real - 1.0, 0.0)]), multiset{}, 1)
  {
    hide Playable, After;
    Nothing(rate);
    Append(rate, [], Find("a"));
    moves := [] + [Find("a")];
    assert After(rate, moves) == Progress(Store(map["a" := 0], [Unused]), multiset{0}, 0);
    Append(rate, moves, Sweep(0.0));
    moves := moves + [Sweep(0.0)];
    assert After(rate, moves).store == Store(map[], [Unused]);
    Append(rate, moves, Take(0, 0.0));
    moves := moves + [Take(0, 0.0)];
    assert After(rate, moves).store == Store(map[], [Level(rate.burst as real - 1.0, 0.0)]);
  }

  /** Then the client's next `n` calls, with nothing in between. */
  function Later(rate: Rate, n: nat): Progress {
    var first := Level(rate.burst as real - 1.0, 0.0);
    if n == 0 then Progress(Store(map[], [first]), multiset{}, 1)
    else Progress(Store(map["a" := 1], [first, Level((rate.burst - n) as real, 0.0)]), multiset{}, 1 + n)
  }

  lemma OneMoreCall(rate: Rate, n: nat, before: seq<Move>) returns (moves: seq<Move>)
    requires rate.Valid() && n < rate.burst && Playable(rate, before) && AtOnce(before)
    requires After(rate, before) == Later(rate, n)
    ensures Playable(rate, moves) && AtOnce(moves) && After(rate, moves) == Later(rate, n + 1)
  {
    hide Playable, After;
    Append(rate, before, Find("a"));
    moves := before + [Find("a")];
    assert After(rate, moves).store.ips == map["a" := 1] && 1 in After(rate, moves).pending;
    Append(rate, moves, Take(1, 0.0));
    moves := moves + [Take(1, 0.0)];
    assert After(rate, moves).pending == multiset{};
    assert After(rate, moves).store.buckets == Later(rate, n + 1).store.buckets;
  }

  lemma {:induction false} CallsAfterSweep(rate: Rate, n: nat) returns (moves: seq<Move>)
    requires rate.Valid() && n <= rate.burst
    ensures Playable(rate, moves) && AtOnce(moves) && After(rate, moves) == Later(rate, n)
  {
    hide Playable, After;
    if n == 0 {
      moves := LoseTheFirst(rate);
    } else {
      moves := CallsAfterSweep(rate, n - 1);
      moves := OneMoreCall(rate, n - 1, moves);
    }
  }

  /** Whatever the burst, one sweep between the two steps of a new client's first call
      lets the client in once more at one moment than calls in one step ever would. */
  lemma OneTooMany(rate: Rate) returns (moves: seq<Move>)
    requires rate.Valid()
    ensures Playable(rate, moves) && AtOnce(moves) && After(rate, moves).admitted == rate.burst + 1
  {
    hide Playable, After;
    moves := CallsAfterSweep(rate, rate.burst);
  }
}
