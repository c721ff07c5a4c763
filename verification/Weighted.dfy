/** Smooth weighted round robin as a theory of cursor maps. The map sends every
    backend of the pool to its `curW`; `cands` is the list of candidates one call
    works on, which may change from call to call. */
module Weighted {

  ghost predicate Distinct<T>(xs: seq<T>) {
    xs == [] || (Distinct(xs[..|xs| - 1]) && xs[|xs| - 1] !in xs[..|xs| - 1])
  }

  lemma {:induction false} DistinctPrefix<T>(xs: seq<T>, i: nat)
    requires Distinct(xs) && i <= |xs|
    ensures Distinct(xs[..i]) && (i < |xs| ==> xs[i] !in xs[..i])
  {
    if i == |xs| {
      assert xs[..i] == xs;
    } else if i < |xs| - 1 {
      var n := |xs| - 1;
      DistinctPrefix(xs[..n], i);
      assert xs[..n][..i] == xs[..i];
    }
  }

  lemma DistinctAppend<T>(xs: seq<T>, x: T)
    requires Distinct(xs) && x !in xs
    ensures Distinct(xs + [x])
  {
    assert (xs + [x])[..|xs|] == xs;
  }

  lemma {:induction false} DistinctMeaning<T>(xs: seq<T>)
    ensures Distinct(xs) <==> forall i, j | 0 <= i < j < |xs| :: xs[i] != xs[j]
  {
    if xs == [] {
    } else {
      var n := |xs| - 1;
      DistinctMeaning(xs[..n]);
      assert forall i | 0 <= i < n :: xs[..n][i] == xs[i];
    }
  }

  ghost predicate Covers<T>(m: map<T, int>, xs: seq<T>) {
    forall x | x in xs :: x in m
  }

  function Sum<T>(m: map<T, int>, xs: seq<T>): int
    requires Covers(m, xs)
  {
    if xs == [] then 0 else Sum(m, xs[..|xs| - 1]) + m[xs[|xs| - 1]]
  }

  /** Adds its weight to every candidate's cursor. */
  function Bump<T>(cur: map<T, int>, w: map<T, int>, cands: seq<T>): (r: map<T, int>)
    requires Covers(cur, cands) && Covers(w, cands)
    ensures r.Keys == cur.Keys
  {
    if cands == [] then cur
    else
      var x := cands[|cands| - 1];
      var c := Bump(cur, w, cands[..|cands| - 1]);
      c[x := c[x] + w[x]]
  }

  /** Where the first candidate with the greatest cursor stands. */
  function BestAt<T>(cur: map<T, int>, cands: seq<T>): (j: nat)
    requires cands != [] && Covers(cur, cands)
    ensures j < |cands|
  {
    var n := |cands| - 1;
    if n == 0 then 0
    else
      var j := BestAt(cur, cands[..n]);
      if cur[cands[n]] > cur[cands[j]] then n else j
  }

  function Best<T>(cur: map<T, int>, cands: seq<T>): (b: T)
    requires cands != [] && Covers(cur, cands)
    ensures b in cands
  {
    cands[BestAt(cur, cands)]
  }

  datatype Choice<T> = Choice(best: T, cur: map<T, int>)

  function Pick<T>(cur: map<T, int>, w: map<T, int>, cands: seq<T>): (r: Choice<T>)
    requires cands != [] && Covers(cur, cands) && Covers(w, cands)
    ensures r.cur.Keys == cur.Keys && r.best in cands
  {
    var c := Bump(cur, w, cands);
    var b := Best(c, cands);
    Choice(b, c[b := c[b] - Sum(w, cands)])
  }

  datatype Trace<T> = Trace(picks: seq<T>, cur: map<T, int>)

  ghost predicate Callable<T>(cur: map<T, int>, w: map<T, int>, cands: seq<T>) {
    cands != [] && Distinct(cands) && Covers(cur, cands) && Covers(w, cands)
  }

  /** Every call works on candidates that the pool knows. */
  ghost predicate Playable<T>(cur: map<T, int>, w: map<T, int>, calls: seq<seq<T>>) {
    calls == [] || (Playable(cur, w, calls[..|calls| - 1]) && Callable(cur, w, calls[|calls| - 1]))
  }

  /** One pick per entry of `calls`, in order. */
  ghost function Play<T>(cur: map<T, int>, w: map<T, int>, calls: seq<seq<T>>): (r: Trace<T>)
    requires Playable(cur, w, calls)
    ensures |r.picks| == |calls| && r.cur.Keys == cur.Keys
  {
    if calls == [] then Trace([], cur)
    else
      var t := Play(cur, w, calls[..|calls| - 1]);
      assert forall x | x in cur :: x in t.cur;
      var p := Pick(t.cur, w, calls[|calls| - 1]);
      Trace(t.picks + [p.best], p.cur)
  }

  function Count<T(==)>(xs: seq<T>, x: T): nat {
    if xs == [] then 0 else Count(xs[..|xs| - 1], x) + if xs[|xs| - 1] == x then 1 else 0
  }

  // ---------- Sums ----------

  lemma Distribute(total: int, a: int, b: int)
    ensures total * (a - b) == total * a - total * b
  {
  }

  lemma {:induction false} SumUpdate<T>(m: map<T, int>, xs: seq<T>, x: T, v: int)
    requires Distinct(xs) && Covers(m, xs)
    ensures Covers(m[x := v], xs)
    ensures Sum(m[x := v], xs) == Sum(m, xs) + if x in xs then v - m[x] else 0
  {
    if xs == [] {
    } else {
      var n := |xs| - 1;
      SumUpdate(m, xs[..n], x, v);
      assert xs == xs[..n] + [xs[n]];
    }
  }

  lemma {:induction false} SumLe<T>(a: map<T, int>, b: map<T, int>, xs: seq<T>)
    requires Covers(a, xs) && Covers(b, xs)
    requires forall i | 0 <= i < |xs| :: a[xs[i]] <= b[xs[i]]
    ensures Sum(a, xs) <= Sum(b, xs)
    ensures Sum(a, xs) == Sum(b, xs) ==> forall i | 0 <= i < |xs| :: a[xs[i]] == b[xs[i]]
  {
    if xs == [] {
    } else {
      var n := |xs| - 1;
      var ys := xs[..n];
      assert forall i | 0 <= i < n :: ys[i] == xs[i];
      SumLe(a, b, ys);
      if Sum(a, xs) == Sum(b, xs) {
        forall i | 0 <= i < |xs|
          ensures a[xs[i]] == b[xs[i]]
        {
          if i < n { assert ys[i] == xs[i]; }
        }
      }
    }
  }

  /** If all entries are at least `lo` then any one of them is at most what the
      others leave of the sum. */
  lemma {:induction false} SumLower<T>(m: map<T, int>, xs: seq<T>, lo: int, x: T)
    requires Covers(m, xs) && forall y | y in xs :: m[y] >= lo
    ensures Sum(m, xs) >= |xs| * lo
    ensures x in xs ==> Sum(m, xs) >= m[x] + (|xs| - 1) * lo
  {
    if xs == [] {
    } else {
      var n := |xs| - 1;
      SumLower(m, xs[..n], lo, x);
      assert xs == xs[..n] + [xs[n]];
      assert |xs| * lo == n * lo + lo;
      assert n > 0 ==> n * lo == (n - 1) * lo + lo;
    }
  }

  // ---------- One pick ----------

  lemma LoopStart<T>(cur: map<T, int>, w: map<T, int>, cands: seq<T>)
    ensures Bump(cur, w, cands[..0]) == cur && Sum(w, cands[..0]) == 0
  {
  }

  lemma BestStep<T>(c: map<T, int>, cands: seq<T>, i: nat, v: int)
    requires 0 < i < |cands| && Covers(c, cands) && cands[i] !in cands[..i]
    ensures var c' := c[cands[i] := v];
            Best(c', cands[..i + 1]) == if v > c'[Best(c, cands[..i])] then cands[i] else Best(c, cands[..i])
  {
    var front := cands[..i];
    assert cands[..i + 1][..i] == front && cands[..i + 1][i] == cands[i];
    BestLocal(c, c[cands[i] := v], front);
  }

  /** One turn of the loop that bumps the cursors, adds up the weights and keeps
      the best candidate so far. */
  lemma LoopStep<T>(cur: map<T, int>, w: map<T, int>, cands: seq<T>, i: nat)
    requires i < |cands| && Distinct(cands) && Covers(cur, cands) && Covers(w, cands)
    ensures var x, c := cands[i], Bump(cur, w, cands[..i]);
            var c' := c[x := c[x] + w[x]];
            && Bump(cur, w, cands[..i + 1]) == c'
            && Sum(w, cands[..i + 1]) == Sum(w, cands[..i]) + w[x]
            && Best(c', cands[..i + 1]) ==
               if i == 0 || c'[x] > c'[Best(c, cands[..i])] then x else Best(c, cands[..i])
  {
    hide Best, Distinct;
    assert cands[..i + 1][..i] == cands[..i];
    var x, c := cands[i], Bump(cur, w, cands[..i]);
    if i > 0 {
      DistinctPrefix(cands, i);
      BestStep(c, cands, i, c[x] + w[x]);
    } else {
      assert Best(c[x := c[x] + w[x]], cands[..1]) in cands[..1];
    }
  }

  lemma {:induction false} BumpAt<T>(cur: map<T, int>, w: map<T, int>, cands: seq<T>, x: T)
    requires Distinct(cands) && Covers(cur, cands) && Covers(w, cands) && x in cur
    ensures Bump(cur, w, cands)[x] == cur[x] + if x in cands then w[x] else 0
  {
    if cands == [] {
    } else {
      var n := |cands| - 1;
      BumpAt(cur, w, cands[..n], x);
      assert cands == cands[..n] + [cands[n]];
    }
  }

  lemma {:induction false} BumpSum<T>(cur: map<T, int>, w: map<T, int>, cands: seq<T>, all: seq<T>)
    requires Covers(cur, cands) && Covers(w, cands)
    requires Distinct(all) && Covers(cur, all) && forall x | x in cands :: x in all
    ensures Sum(Bump(cur, w, cands), all) == Sum(cur, all) + Sum(w, cands)
  {
    if cands == [] {
    } else {
      var n := |cands| - 1;
      var x, c := cands[n], Bump(cur, w, cands[..n]);
      BumpSum(cur, w, cands[..n], all);
      SumUpdate(c, all, x, c[x] + w[x]);
    }
  }

  lemma {:induction false} BestIsFirstMax<T>(cur: map<T, int>, cands: seq<T>, i: nat)
    requires i < |cands| && Covers(cur, cands)
    ensures cur[cands[i]] <= cur[Best(cur, cands)]
    ensures i < BestAt(cur, cands) ==> cur[cands[i]] < cur[Best(cur, cands)]
  {
    var n := |cands| - 1;
    if n == 0 {
    } else if i < n {
      BestIsFirstMax(cur, cands[..n], i);
      assert cands[..n][i] == cands[i];
      assert Best(cur, cands[..n]) == cands[BestAt(cur, cands[..n])];
    }
  }

  lemma {:induction false} BestLocal<T>(a: map<T, int>, b: map<T, int>, cands: seq<T>)
    requires cands != [] && Covers(a, cands) && Covers(b, cands)
    requires forall x | x in cands :: a[x] == b[x]
    ensures BestAt(a, cands) == BestAt(b, cands)
  {
    if |cands| <= 1 {
    } else {
      BestLocal(a, b, cands[..|cands| - 1]);
    }
  }

  /** A pick conserves the sum of the cursors, over the candidates and over any
      larger pool around them. */
  lemma PickConserves<T>(cur: map<T, int>, w: map<T, int>, cands: seq<T>, all: seq<T>)
    requires cands != [] && Covers(cur, cands) && Covers(w, cands)
    requires Distinct(all) && Covers(cur, all) && forall x | x in cands :: x in all
    ensures Sum(Pick(cur, w, cands).cur, all) == Sum(cur, all)
  {
    BumpSum(cur, w, cands, all);
    var c := Bump(cur, w, cands);
    var b := Best(c, cands);
    SumUpdate(c, all, b, c[b] - Sum(w, cands));
  }

  lemma PickAt<T>(cur: map<T, int>, w: map<T, int>, cands: seq<T>, x: T)
    requires cands != [] && Distinct(cands) && Covers(cur, cands) && Covers(w, cands) && x in cur
    ensures var p := Pick(cur, w, cands);
            p.cur[x] == cur[x] + (if x in cands then w[x] else 0)
                        - (if x == p.best then Sum(w, cands) else 0)
  {
    BumpAt(cur, w, cands, x);
  }

  /** The pick is the first candidate whose raised cursor is the greatest. */
  lemma PickIsGreatest<T>(cur: map<T, int>, w: map<T, int>, cands: seq<T>, x: T)
    requires Callable(cur, w, cands) && x in cands
    ensures var b := Pick(cur, w, cands).best; cur[x] + w[x] <= cur[b] + w[b]
  {
    hide Best, BestAt, Distinct;
    var c := Bump(cur, w, cands);
    var i :| 0 <= i < |cands| && cands[i] == x;
    BestIsFirstMax(c, cands, i);
    BumpAt(cur, w, cands, x);
    BumpAt(cur, w, cands, Best(c, cands));
  }

  /** All candidates' cursors are at least `lo`, and high enough on average that the
      greatest of them can pay a whole turn without falling below it. */
  ghost predicate Floored<T>(cur: map<T, int>, w: map<T, int>, cands: seq<T>, lo: int)
    requires Covers(cur, cands) && Covers(w, cands)
  {
    && (forall x | x in cands :: cur[x] >= lo)
    && |cands| * (lo + Sum(w, cands) - 1) < Sum(cur, cands) + Sum(w, cands)
  }

  lemma WinnerCanPay<T>(cur: map<T, int>, w: map<T, int>, cands: seq<T>, lo: int)
    requires cands != [] && Distinct(cands) && Covers(cur, cands) && Covers(w, cands) && Floored(cur, w, cands, lo)
    ensures var c := Bump(cur, w, cands); c[Best(c, cands)] >= lo + Sum(w, cands)
  {
    hide Best;
    var c, most := Bump(cur, w, cands), lo + Sum(w, cands) - 1;
    BumpSum(cur, w, cands, cands);
    if c[Best(c, cands)] <= most {
      var flat := map x | x in cands :: most;
      forall i | 0 <= i < |cands|
        ensures c[cands[i]] <= flat[cands[i]]
      {
        BestIsFirstMax(c, cands, i);
      }
      SumLe(c, flat, cands);
      SumConst(flat, cands, most);
    }
  }

  /** A pick keeps every such floor: the winner had it and a whole turn more. */
  lemma PickKeepsFloor<T>(cur: map<T, int>, w: map<T, int>, cands: seq<T>, lo: int)
    requires cands != [] && Distinct(cands) && Covers(cur, cands) && Covers(w, cands)
    requires Floored(cur, w, cands, lo) && forall x | x in cands :: w[x] > 0
    ensures Floored(Pick(cur, w, cands).cur, w, cands, lo)
  {
    hide Best, Sum;
    WinnerCanPay(cur, w, cands, lo);
    PickConserves(cur, w, cands, cands);
    forall x | x in cands
      ensures Pick(cur, w, cands).cur[x] >= lo
    {
      BumpAt(cur, w, cands, x);
    }
  }

  lemma {:induction false} SumConst<T>(m: map<T, int>, xs: seq<T>, v: int)
    requires Covers(m, xs) && forall x | x in xs :: m[x] == v
    ensures Sum(m, xs) == |xs| * v
  {
    if xs == [] {
    } else {
      SumConst(m, xs[..|xs| - 1], v);
    }
  }

  /** Candidates whose cursors sum to zero and stay above minus the total weight
      are floored there. */
  lemma LevelIsFloored<T>(cur: map<T, int>, w: map<T, int>, cands: seq<T>)
    requires cands != [] && Covers(cur, cands) && Covers(w, cands)
    requires Sum(cur, cands) == 0 && forall x | x in cands :: w[x] > 0 && cur[x] > -Sum(w, cands)
    ensures Floored(cur, w, cands, 1 - Sum(w, cands))
  {
    SumLower(w, cands, 1, cands[0]);
  }

  /** Without level cursors that fails: here both are above minus the total weight,
      and a pick takes one of them down to it. */
  lemma UnlevelSinks()
    ensures var cur, w, cands := map[1 := -1, 2 := -1], map[1 := 1, 2 := 1], [1, 2];
            && Sum(w, cands) == 2 && Sum(cur, cands) == -2
            && (forall x | x in cands :: cur[x] > -2)
            && Pick(cur, w, cands).cur[1] == -2
  {
    var cur, w, cands := map[1 := -1, 2 := -1], map[1 := 1, 2 := 1], [1, 2];
    assert cands[..1] == [1] && [1][..0] == [];
    assert Bump(cur, w, [1]) == map[1 := 0, 2 := -1];
    assert Bump(cur, w, cands) == map[1 := 0, 2 := 0];
  }

  // ---------- Whole runs ----------

  ghost predicate Within<T>(calls: seq<seq<T>>, all: seq<T>) {
    calls == [] || (Within(calls[..|calls| - 1], all) && forall x | x in calls[|calls| - 1] :: x in all)
  }

  /** However the candidate list changes from call to call, the cursors of the
      whole pool keep their sum. */
  lemma {:induction false} PlayConserves<T>(cur: map<T, int>, w: map<T, int>, calls: seq<seq<T>>, all: seq<T>)
    requires Playable(cur, w, calls) && Distinct(all) && Covers(cur, all) && Within(calls, all)
    ensures Covers(Play(cur, w, calls).cur, all)
    ensures Sum(Play(cur, w, calls).cur, all) == Sum(cur, all)
  {
    if calls == [] {
    } else {
      var n := |calls| - 1;
      PlayConserves(cur, w, calls[..n], all);
      PickConserves(Play(cur, w, calls[..n]).cur, w, calls[n], all);
    }
  }

  /** What a backend earned: its weight for every call it was a candidate of. */
  ghost function Earned<T>(w: map<T, int>, calls: seq<seq<T>>, x: T): int
    requires x in w
  {
    if calls == [] then 0
    else Earned(w, calls[..|calls| - 1], x) + if x in calls[|calls| - 1] then w[x] else 0
  }

  /** What it paid: the total weight of every call that picked it. */
  ghost function Paid<T>(cur: map<T, int>, w: map<T, int>, calls: seq<seq<T>>, picks: seq<T>, x: T): int
    requires |picks| == |calls| && Playable(cur, w, calls)
  {
    if calls == [] then 0
    else
      var n := |calls| - 1;
      Paid(cur, w, calls[..n], picks[..n], x) + if picks[n] == x then Sum(w, calls[n]) else 0
  }

  /** The ledger of an arbitrary run: a cursor is what it was, plus what the
      backend earned, minus what it paid. */
  lemma {:induction false} PlayLedger<T>(cur: map<T, int>, w: map<T, int>, calls: seq<seq<T>>, x: T)
    requires Playable(cur, w, calls) && x in cur && x in w
    ensures var t := Play(cur, w, calls);
            t.cur[x] == cur[x] + Earned(w, calls, x) - Paid(cur, w, calls, t.picks, x)
  {
    if calls == [] {
    } else {
      var n := |calls| - 1;
      PlayLedger(cur, w, calls[..n], x);
      var t := Play(cur, w, calls[..n]);
      PickAt(t.cur, w, calls[n], x);
      assert Play(cur, w, calls).picks[..n] == t.picks;
    }
  }

  // ---------- Runs with one candidate list ----------

  function Same<T>(cands: seq<T>, k: nat): (r: seq<seq<T>>)
    ensures |r| == k
  {
    if k == 0 then [] else Same(cands, k - 1) + [cands]
  }

  lemma {:induction false} SameIsPlayable<T>(cur: map<T, int>, w: map<T, int>, cands: seq<T>, k: nat)
    requires Callable(cur, w, cands)
    ensures Playable(cur, w, Same(cands, k))
    ensures k > 0 ==> Same(cands, k)[..k - 1] == Same(cands, k - 1)
  {
    hide Callable;
    if k == 0 {
    } else {
      SameIsPlayable(cur, w, cands, k - 1);
    }
  }

  /** `k` calls over one candidate list. */
  ghost function PlayFixed<T>(cur: map<T, int>, w: map<T, int>, cands: seq<T>, k: nat): (r: Trace<T>)
    requires Callable(cur, w, cands)
    ensures |r.picks| == k && r.cur.Keys == cur.Keys
  {
    SameIsPlayable(cur, w, cands, k);
    Play(cur, w, Same(cands, k))
  }

  lemma PlayFixedStep<T>(cur: map<T, int>, w: map<T, int>, cands: seq<T>, k: nat)
    requires Callable(cur, w, cands)
    ensures PlayFixed(cur, w, cands, 0) == Trace([], cur)
    ensures k > 0 ==>
              var t := PlayFixed(cur, w, cands, k - 1);
              var p := Pick(t.cur, w, cands);
              PlayFixed(cur, w, cands, k) == Trace(t.picks + [p.best], p.cur)
  {
    SameIsPlayable(cur, w, cands, k);
  }

  ghost predicate Fixed<T>(cur: map<T, int>, w: map<T, int>, cands: seq<T>) {
    Callable(cur, w, cands) && forall x | x in cands :: w[x] > 0
  }

  /** Any k consecutive calls over one candidate list, from any cursors:
      W * count = k * weight + cursor before - cursor after. */
  lemma {:induction false} FixedLedger<T>(cur: map<T, int>, w: map<T, int>, cands: seq<T>, k: nat, x: T)
    requires Fixed(cur, w, cands) && x in cands
    ensures var t := PlayFixed(cur, w, cands, k);
            Sum(w, cands) * Count(t.picks, x) == k * w[x] + cur[x] - t.cur[x]
  {
    hide PlayFixed, Sum, Distinct, Pick;
    PlayFixedStep(cur, w, cands, k);
    if k == 0 {
    } else {
      FixedLedger(cur, w, cands, k - 1, x);
      var t, after := PlayFixed(cur, w, cands, k - 1), PlayFixed(cur, w, cands, k);
      PickAt(t.cur, w, cands, x);
      assert after.picks[..k - 1] == t.picks;
      var turn := if after.picks[k - 1] == x then 1 else 0;
      LedgerArithmetic(Sum(w, cands), Count(t.picks, x), turn, k, w[x], cur[x], t.cur[x], after.cur[x]);
    }
  }

  lemma LedgerArithmetic(total: int, count: int, turn: int, k: int, weight: int, start: int, before: int, after: int)
    requires total * count == (k - 1) * weight + start - before
    requires turn in {0, 1} && after == before + weight - if turn == 1 then total else 0
    ensures total * (count + turn) == k * weight + start - after
  {
    Distribute(total, count, -turn);
    Distribute(weight, k, 1);
  }

  lemma {:induction false} FixedFloor<T>(cur: map<T, int>, w: map<T, int>, cands: seq<T>, k: nat, lo: int)
    requires Fixed(cur, w, cands) && Floored(cur, w, cands, lo)
    ensures Sum(PlayFixed(cur, w, cands, k).cur, cands) == Sum(cur, cands)
    ensures Floored(PlayFixed(cur, w, cands, k).cur, w, cands, lo)
  {
    hide Sum, Distinct, Pick, PlayFixed;
    PlayFixedStep(cur, w, cands, k);
    if k == 0 {
    } else {
      FixedFloor(cur, w, cands, k - 1, lo);
      var t := PlayFixed(cur, w, cands, k - 1);
      PickConserves(t.cur, w, cands, cands);
      PickKeepsFloor(t.cur, w, cands, lo);
    }
  }

  lemma FixedCeiling<T>(cur: map<T, int>, w: map<T, int>, cands: seq<T>, k: nat, lo: int, x: T)
    requires Fixed(cur, w, cands) && x in cands && Floored(cur, w, cands, lo)
    ensures PlayFixed(cur, w, cands, k).cur[x] <= Sum(cur, cands) - (|cands| - 1) * lo
  {
    hide PlayFixed, Sum, Distinct;
    FixedFloor(cur, w, cands, k, lo);
    SumLower(PlayFixed(cur, w, cands, k).cur, cands, lo, x);
  }

  /** Fairness from any cursors, such as a change of the candidates leaves behind:
      however many calls follow, W times the picks of a backend stays within fixed
      bounds of k times its weight. */
  lemma FairFromAnywhere<T>(cur: map<T, int>, w: map<T, int>, cands: seq<T>, k: nat, least: int, x: T)
    requires Fixed(cur, w, cands) && x in cands && forall y | y in cands :: cur[y] >= least
    ensures var total := Sum(w, cands);
            var ahead := total * Count(PlayFixed(cur, w, cands, k).picks, x) - k * w[x];
            cur[x] - Sum(cur, cands) + (|cands| - 1) * (least - total) <= ahead <= cur[x] - (least - total)
  {
    hide PlayFixed, Sum, Distinct;
    var lo := least - Sum(w, cands);
    SumLower(w, cands, 1, x);
    SumLower(cur, cands, least, x);
    Distribute(|cands|, least, 1);
    FixedFloor(cur, w, cands, k, lo);
    FixedCeiling(cur, w, cands, k, lo, x);
    FixedLedger(cur, w, cands, k, x);
  }

  /** The floor of `n` level cursors under this total weight. */
  function LevelFloor(total: int, n: nat): int
    requires n > 0
  {
    1 - total + (total - 1) / n
  }

  lemma FloorOfZeros(total: int, n: nat)
    requires 0 < n <= total
    ensures LevelFloor(total, n) > -total && n * (LevelFloor(total, n) + total - 1) < total
  {
    var q := (total - 1) / n;
    assert q >= 0 && n * q <= total - 1 by { WholeTurns(n, total - 1); }
    assert LevelFloor(total, n) + total - 1 == q;
    hide LevelFloor;
    assert n * (LevelFloor(total, n) + total - 1) == n * q;
  }

  lemma ZerosAreFloored<T>(cur: map<T, int>, w: map<T, int>, cands: seq<T>)
    requires Fixed(cur, w, cands) && forall y | y in cands :: cur[y] == 0
    ensures Sum(w, cands) >= |cands| > 0 && Sum(cur, cands) == 0
    ensures LevelFloor(Sum(w, cands), |cands|) > -Sum(w, cands)
    ensures Floored(cur, w, cands, LevelFloor(Sum(w, cands), |cands|))
  {
    hide Sum, Distinct, LevelFloor;
    SumConst(cur, cands, 0);
    SumLower(w, cands, 1, cands[0]);
    FloorOfZeros(Sum(w, cands), |cands|);
  }

  /** Fairness at every prefix: starting from level cursors, after k calls no
      backend is ahead of its share k*w/W by a whole turn, and none is behind it
      by more than (n-1)(W-1-q)/W turns, where q is (W-1)/n rounded down. */
  lemma FairAtEveryPrefix<T>(cur: map<T, int>, w: map<T, int>, cands: seq<T>, k: nat, x: T)
    requires Fixed(cur, w, cands) && x in cands
    requires forall y | y in cands :: cur[y] == 0
    ensures var t, total, floor := PlayFixed(cur, w, cands, k), Sum(w, cands), LevelFloor(Sum(w, cands), |cands|);
            && total * Count(t.picks, x) == k * w[x] - t.cur[x]
            && -total < floor <= t.cur[x] <= -(|cands| - 1) * floor
  {
    hide Sum, Distinct, LevelFloor, PlayFixed, Count;
    var floor := LevelFloor(Sum(w, cands), |cands|);
    ZerosAreFloored(cur, w, cands);
    assert floor <= PlayFixed(cur, w, cands, k).cur[x] by {
      FixedFloor(cur, w, cands, k, floor);
    }
    assert PlayFixed(cur, w, cands, k).cur[x] <= -(|cands| - 1) * floor by {
      hide *;
      FixedCeiling(cur, w, cands, k, floor, x);
      Negated(|cands| - 1, floor);
    }
    FixedLedger(cur, w, cands, k, x);
  }

  lemma Negated(n: int, lo: int)
    ensures 0 - n * lo == -n * lo
  {
  }

  lemma WholeTurns(n: nat, a: nat)
    requires n > 0
    ensures a / n >= 0 && n * (a / n) <= a
  {
  }

  function Counts<T>(picks: seq<T>, xs: seq<T>): map<T, int> {
    map x | x in xs :: Count(picks, x)
  }

  lemma {:induction false} CountsSum<T>(picks: seq<T>, xs: seq<T>)
    requires Distinct(xs) && forall p | p in picks :: p in xs
    ensures Sum(Counts(picks, xs), xs) == |picks|
  {
    if picks == [] {
      SumConst(Counts(picks, xs), xs, 0);
    } else {
      var n := |picks| - 1;
      var c := Counts(picks[..n], xs);
      CountsSum(picks[..n], xs);
      assert picks[n] in picks;
      SumUpdate(c, xs, picks[n], c[picks[n]] + 1);
      assert Counts(picks, xs) == c[picks[n] := c[picks[n]] + 1];
    }
  }

  lemma {:induction false} PicksAreCandidates<T>(cur: map<T, int>, w: map<T, int>, cands: seq<T>, k: nat)
    requires Callable(cur, w, cands)
    ensures forall p | p in PlayFixed(cur, w, cands, k).picks :: p in cands
  {
    PlayFixedStep(cur, w, cands, k);
    if k == 0 {
    } else {
      PicksAreCandidates(cur, w, cands, k - 1);
    }
  }

  lemma {:induction false} FixedOthers<T>(cur: map<T, int>, w: map<T, int>, cands: seq<T>, k: nat, x: T)
    requires Fixed(cur, w, cands) && x in cur && x !in cands
    ensures PlayFixed(cur, w, cands, k).cur[x] == cur[x]
  {
    PlayFixedStep(cur, w, cands, k);
    if k == 0 {
    } else {
      FixedOthers(cur, w, cands, k - 1, x);
      PickAt(PlayFixed(cur, w, cands, k - 1).cur, w, cands, x);
    }
  }

  lemma ShareArithmetic(total: int, weight: int, count: int, cursor: int)
    requires total > 0 && -total < cursor == total * weight - total * count
    ensures count <= weight && cursor == total * (weight - count)
  {
    Distribute(total, weight, count);
    var d := weight - count;
    assert total * d > -total;
    if d < 0 {
      Distribute(total, -1, d);
    }
  }

  lemma NoneOverServed<T>(cur: map<T, int>, w: map<T, int>, cands: seq<T>, total: nat, x: T)
    requires Fixed(cur, w, cands) && x in cands && total == Sum(w, cands) > 0
    requires forall y | y in cands :: cur[y] == 0
    ensures var t := PlayFixed(cur, w, cands, total);
            && Count(t.picks, x) <= w[x]
            && t.cur[x] == total * (w[x] - Count(t.picks, x))
  {
    FairAtEveryPrefix(cur, w, cands, total, x);
    var t := PlayFixed(cur, w, cands, total);
    ShareArithmetic(total, w[x], Count(t.picks, x), t.cur[x]);
  }

  lemma AllServed<T>(cur: map<T, int>, w: map<T, int>, cands: seq<T>, total: nat)
    requires Fixed(cur, w, cands) && total == Sum(w, cands) > 0
    requires forall y | y in cands :: cur[y] == 0
    ensures var t := PlayFixed(cur, w, cands, total);
            forall i | 0 <= i < |cands| :: Count(t.picks, cands[i]) == w[cands[i]]
  {
    var t := PlayFixed(cur, w, cands, total);
    var counts := Counts(t.picks, cands);
    forall i | 0 <= i < |cands|
      ensures counts[cands[i]] <= w[cands[i]]
    {
      NoneOverServed(cur, w, cands, total, cands[i]);
    }
    PicksAreCandidates(cur, w, cands, total);
    CountsSum(t.picks, cands);
    SumLe(counts, w, cands);
  }

  /** One full round of W calls from level cursors picks every backend exactly
      as often as its weight says and puts every cursor back where it was, so the
      schedule repeats. */
  lemma ExactOverOneRound<T>(cur: map<T, int>, w: map<T, int>, cands: seq<T>)
    requires Fixed(cur, w, cands)
    requires forall x | x in cands :: cur[x] == 0
    ensures Sum(w, cands) > 0
    ensures var t := PlayFixed(cur, w, cands, Sum(w, cands));
            && t.cur == cur
            && forall i | 0 <= i < |cands| :: Count(t.picks, cands[i]) == w[cands[i]]
  {
    SumLower(w, cands, 1, cands[0]);
    AllServed(cur, w, cands, Sum(w, cands));
    forall x | x in cur
      ensures PlayFixed(cur, w, cands, Sum(w, cands)).cur[x] == cur[x]
    {
      BackWhereItWas(cur, w, cands, Sum(w, cands), x);
    }
  }

  lemma BackWhereItWas<T>(cur: map<T, int>, w: map<T, int>, cands: seq<T>, total: nat, x: T)
    requires Fixed(cur, w, cands) && x in cur && total == Sum(w, cands) > 0
    requires forall y | y in cands :: cur[y] == 0
    ensures PlayFixed(cur, w, cands, total).cur[x] == cur[x]
  {
    if x in cands {
      AllServed(cur, w, cands, total);
      var j :| 0 <= j < |cands| && cands[j] == x;
      assert Count(PlayFixed(cur, w, cands, total).picks, cands[j]) == w[x];
      FixedLedger(cur, w, cands, total, x);
    } else {
      FixedOthers(cur, w, cands, total, x);
    }
  }
}
