/** Fairness of smooth weighted round robin when health, backups and exclusions
    change the candidates from call to call. */
module ChangingCandidates {
  import opened Pools
  import opened Weighted

  /** The cursors of the pool's backends that lie in `group`, added up. */
  function Part<T>(m: map<T, int>, all: seq<T>, group: set<T>): int
    requires Covers(m, all)
  {
    if all == [] then 0
    else
      var n := |all| - 1;
      Part(m, all[..n], group) + if all[n] in group then m[all[n]] else 0
  }

  /** How far below level `k` of `n` backends can sink together, with weights that
      add up to `total`. */
  function Depth(total: int, n: int, k: int): int {
    total * (k * (n - k))
  }

  /** Every group of backends stays above its depth. */
  ghost predicate Spread<T>(cur: map<T, int>, all: seq<T>, total: int)
    requires Covers(cur, all)
  {
    forall group | group <= Elements(all) :: Part(cur, all, group) >= -Depth(total, |all|, |group|)
  }

  // ---------- Parts ----------

  lemma {:induction false} PartUpdate<T>(m: map<T, int>, all: seq<T>, group: set<T>, x: T, v: int)
    requires Distinct(all) && Covers(m, all) && x in all
    ensures Covers(m[x := v], all)
    ensures Part(m[x := v], all, group) == Part(m, all, group) + if x in group then v - m[x] else 0
  {
    var n := |all| - 1;
    assert all == all[..n] + [all[n]];
    if x == all[n] {
      PartElsewhere(m, m[x := v], all[..n], group);
    } else {
      PartUpdate(m, all[..n], group, x, v);
    }
  }

  lemma {:induction false} PartElsewhere<T>(a: map<T, int>, b: map<T, int>, all: seq<T>, group: set<T>)
    requires Covers(a, all) && Covers(b, all) && forall x | x in all :: a[x] == b[x]
    ensures Part(a, all, group) == Part(b, all, group)
  {
    if all == [] {
    } else {
      PartElsewhere(a, b, all[..|all| - 1], group);
    }
  }

  lemma {:induction false} PartLe<T>(a: map<T, int>, b: map<T, int>, all: seq<T>, group: set<T>)
    requires Covers(a, all) && Covers(b, all) && forall x | x in all :: a[x] <= b[x]
    ensures Part(a, all, group) <= Part(b, all, group)
  {
    if all == [] {
    } else {
      PartLe(a, b, all[..|all| - 1], group);
    }
  }

  lemma {:induction false} PartSplits<T>(m: map<T, int>, all: seq<T>, a: set<T>, b: set<T>)
    requires Covers(m, all) && a !! b
    ensures Part(m, all, a + b) == Part(m, all, a) + Part(m, all, b)
  {
    if all == [] {
    } else {
      PartSplits(m, all[..|all| - 1], a, b);
    }
  }

  lemma {:induction false} PartOfAll<T>(m: map<T, int>, all: seq<T>, group: set<T>)
    requires Covers(m, all) && forall x | x in all :: x in group
    ensures Part(m, all, group) == Sum(m, all)
  {
    if all == [] {
    } else {
      PartOfAll(m, all[..|all| - 1], group);
    }
  }

  lemma {:induction false} PartOfNone<T>(m: map<T, int>, all: seq<T>, group: set<T>)
    requires Covers(m, all) && forall x | x in all :: x !in group
    ensures Part(m, all, group) == 0
  {
    if all == [] {
    } else {
      PartOfNone(m, all[..|all| - 1], group);
    }
  }

  lemma {:induction false} PartOfOne<T>(m: map<T, int>, all: seq<T>, x: T)
    requires Distinct(all) && Covers(m, all) && x in all
    ensures Part(m, all, {x}) == m[x]
  {
    var n := |all| - 1;
    assert all == all[..n] + [all[n]];
    if x == all[n] {
      PartOfNone(m, all[..n], {x});
    } else {
      PartOfOne(m, all[..n], x);
    }
  }

  // ---------- Raising the cursors ----------

  /** If every candidate lies in the group, the group gains all of the weights. */
  lemma {:induction false} GroupEarns<T>(cur: map<T, int>, w: map<T, int>, cands: seq<T>, all: seq<T>, group: set<T>)
    requires Distinct(all) && Covers(cur, all) && Covers(cur, cands) && Covers(w, cands)
    requires forall x | x in cands :: x in all && x in group
    ensures Covers(Bump(cur, w, cands), all)
    ensures Part(Bump(cur, w, cands), all, group) == Part(cur, all, group) + Sum(w, cands)
  {
    if cands == [] {
    } else {
      var n := |cands| - 1;
      var x, c := cands[n], Bump(cur, w, cands[..n]);
      GroupEarns(cur, w, cands[..n], all, group);
      PartUpdate(c, all, group, x, c[x] + w[x]);
    }
  }

  lemma NoneLoses<T>(cur: map<T, int>, w: map<T, int>, cands: seq<T>, all: seq<T>, group: set<T>)
    requires Distinct(cands) && Covers(cur, all) && Covers(cur, cands) && Covers(w, cands)
    requires forall x | x in cands :: w[x] > 0
    ensures Covers(Bump(cur, w, cands), all) && Part(cur, all, group) <= Part(Bump(cur, w, cands), all, group)
  {
    var c := Bump(cur, w, cands);
    forall x | x in all
      ensures cur[x] <= c[x]
    {
      BumpAt(cur, w, cands, x);
    }
    PartLe(cur, c, all, group);
  }

  lemma CandidatesWeighLess<T>(w: map<T, int>, cands: seq<T>, all: seq<T>)
    requires Distinct(cands) && Distinct(all) && Covers(w, all) && Covers(w, cands)
    requires forall x | x in cands :: x in all
    requires forall x | x in all :: w[x] > 0
    ensures Sum(w, cands) <= Sum(w, all)
  {
    var zeros := map x | x in all :: 0;
    var c := Bump(zeros, w, cands);
    BumpSum(zeros, w, cands, all);
    SumConst(zeros, all, 0);
    forall i | 0 <= i < |all|
      ensures c[all[i]] <= w[all[i]]
    {
      BumpAt(zeros, w, cands, all[i]);
    }
    SumLe(c, w, all);
  }

  // ---------- One call ----------

  lemma DepthStep(total: int, n: int, k: int)
    ensures Depth(total, n, k - 1) + Depth(total, n, k + 1) == 2 * Depth(total, n, k) - 2 * total
  {
    var a := k * (n - k);
    assert (k - 1) * (n - k + 1) == a + k - (n - k) - 1;
    assert (k + 1) * (n - k - 1) == a - k + (n - k) - 1;
    assert total * (a + k - (n - k) - 1) + total * (a - k + (n - k) - 1) == total * (2 * a - 2);
    assert total * (2 * a - 2) == 2 * (total * a) - 2 * total;
  }

  /** The winner and a candidate outside the group: with the winner raised at least
      as high, the group lies no lower than halfway between itself with the other
      candidate and itself without the winner. */
  lemma Halfway<T>(c: map<T, int>, all: seq<T>, group: set<T>, best: T, other: T, total: int)
    requires Distinct(all) && Covers(c, all) && group <= Elements(all)
    requires best in group && other in all && other !in group && c[other] <= c[best]
    requires Part(c, all, group + {other}) >= -Depth(total, |all|, |group| + 1)
    requires Part(c, all, group - {best}) >= -Depth(total, |all|, |group| - 1)
    ensures Part(c, all, group) - total >= -Depth(total, |all|, |group|)
  {
    hide Part, Depth, Distinct;
    PartSplits(c, all, group, {other});
    PartOfOne(c, all, other);
    PartSplits(c, all, group - {best}, {best});
    PartOfOne(c, all, best);
    assert group - {best} + {best} == group;
    DepthStep(total, |all|, |group|);
  }

  lemma GroupAfterPick<T>(cur: map<T, int>, w: map<T, int>, cands: seq<T>, all: seq<T>, total: int, group: set<T>)
    requires Callable(cur, w, cands) && Distinct(all) && Covers(cur, all) && Spread(cur, all, total)
    requires (forall x | x in cands :: x in all && w[x] > 0) && Sum(w, cands) <= total
    requires group <= Elements(all)
    ensures Covers(Pick(cur, w, cands).cur, all)
    ensures Part(Pick(cur, w, cands).cur, all, group) >= -Depth(total, |all|, |group|)
  {
    hide Part, Depth, Distinct, Sum, BestAt;
    var c, b := Bump(cur, w, cands), Pick(cur, w, cands).best;
    NoneLoses(cur, w, cands, all, group);
    PartUpdate(c, all, group, b, c[b] - Sum(w, cands));
    if b in group {
      if y :| y in cands && y !in group {
        var wider, narrower := group + {y}, group - {b};
        assert wider <= Elements(all) && |wider| == |group| + 1 && |narrower| == |group| - 1;
        NoneLoses(cur, w, cands, all, wider);
        NoneLoses(cur, w, cands, all, narrower);
        var i :| 0 <= i < |cands| && cands[i] == y;
        BestIsFirstMax(c, cands, i);
        Halfway(c, all, group, b, y, total);
      } else {
        GroupEarns(cur, w, cands, all, group);
      }
    }
  }

  // ---------- Whole runs ----------

  lemma LevelIsSpread<T>(cur: map<T, int>, all: seq<T>, total: int)
    requires Distinct(all) && Covers(cur, all) && total >= 0 && forall x | x in all :: cur[x] == 0
    ensures Spread(cur, all, total)
  {
    DistinctSize(all);
    forall group | group <= Elements(all)
      ensures Part(cur, all, group) >= -Depth(total, |all|, |group|)
    {
      SubsetSize(group, Elements(all));
      PartOfZeros(cur, all, group);
      NotNegative(|group|, |all| - |group|);
      NotNegative(total, |group| * (|all| - |group|));
    }
  }

  lemma NotNegative(a: int, b: int)
    requires a >= 0 && b >= 0
    ensures a * b >= 0
  {
  }

  lemma {:induction false} PartOfZeros<T>(m: map<T, int>, all: seq<T>, group: set<T>)
    requires Covers(m, all) && forall x | x in all :: m[x] == 0
    ensures Part(m, all, group) == 0
  {
    if all == [] {
    } else {
      PartOfZeros(m, all[..|all| - 1], group);
    }
  }

  /** Positive weights for the whole pool, and level cursors. */
  ghost predicate Fresh<T>(cur: map<T, int>, w: map<T, int>, all: seq<T>) {
    && Distinct(all) && Covers(cur, all) && Covers(w, all)
    && forall x | x in all :: w[x] > 0 && cur[x] == 0
  }

  /** However the candidates change, every group of backends stays above its depth. */
  lemma {:induction false} StaysSpread<T>(cur: map<T, int>, w: map<T, int>, calls: seq<seq<T>>, all: seq<T>)
    requires Fresh(cur, w, all) && Playable(cur, w, calls) && Within(calls, all)
    ensures Covers(Play(cur, w, calls).cur, all) && Spread(Play(cur, w, calls).cur, all, Sum(w, all))
  {
    hide Spread, Distinct, Sum, Pick;
    var total := Sum(w, all);
    if calls == [] {
      TotalIsPositive(w, all);
      LevelIsSpread(cur, all, total);
    } else {
      var n := |calls| - 1;
      StaysSpread(cur, w, calls[..n], all);
      SpreadAfterPick(Play(cur, w, calls[..n]).cur, w, calls[n], all);
    }
  }

  lemma TotalIsPositive<T>(w: map<T, int>, all: seq<T>)
    requires Covers(w, all) && forall x | x in all :: w[x] > 0
    ensures Sum(w, all) >= |all|
  {
    if all == [] {
    } else {
      SumLower(w, all, 1, all[0]);
    }
  }

  lemma SpreadAfterPick<T>(cur: map<T, int>, w: map<T, int>, cands: seq<T>, all: seq<T>)
    requires Callable(cur, w, cands) && Distinct(all) && Covers(cur, all) && Covers(w, all)
    requires Spread(cur, all, Sum(w, all))
    requires (forall x | x in cands :: x in all) && forall x | x in all :: w[x] > 0
    ensures Covers(Pick(cur, w, cands).cur, all) && Spread(Pick(cur, w, cands).cur, all, Sum(w, all))
  {
    hide Part, Depth, Distinct, Sum, Pick;
    CandidatesWeighLess(w, cands, all);
    forall group | group <= Elements(all)
      ensures Part(Pick(cur, w, cands).cur, all, group) >= -Depth(Sum(w, all), |all|, |group|)
    {
      GroupAfterPick(cur, w, cands, all, Sum(w, all), group);
    }
  }

  /** Over any run from level cursors, however health, backups and exclusions change
      the candidates from call to call: what a backend earned and what it paid never
      differ by more than n-1 rounds of the whole pool. */
  lemma FairUnderChange<T>(cur: map<T, int>, w: map<T, int>, calls: seq<seq<T>>, all: seq<T>, x: T)
    requires Fresh(cur, w, all) && Playable(cur, w, calls) && Within(calls, all) && x in all
    ensures var t, bound := Play(cur, w, calls), Depth(Sum(w, all), |all|, 1);
            && bound == Sum(w, all) * (|all| - 1)
            && t.cur[x] == Earned(w, calls, x) - Paid(cur, w, calls, t.picks, x)
            && -bound <= t.cur[x] <= bound
  {
    hide Part, Distinct, Sum, Play, Earned, Paid;
    var last := Play(cur, w, calls).cur;
    StaysSpread(cur, w, calls, all);
    PlayLedger(cur, w, calls, x);
    PlayConserves(cur, w, calls, all);
    SumConst(cur, all, 0);
    DistinctSize(all);
    var others := Elements(all) - {x};
    assert others + {x} == Elements(all) && |others| == |all| - 1;
    PartSplits(last, all, others, {x});
    PartOfOne(last, all, x);
    PartOfAll(last, all, Elements(all));
    assert {x} <= Elements(all);
  }
}
