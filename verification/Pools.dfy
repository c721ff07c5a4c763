/** Pool.Next: which backends are candidates, and which candidate each strategy
    picks. The candidate rules are stated over values, so that the retry loop's
    interleaved model can use the same definition. */
module Pools {
  import opened Backends
  import opened Weighted

  // ---------- Candidates ----------

  function Select<T>(xs: seq<T>, keep: set<T>): (r: seq<T>)
    ensures forall x | x in r :: x in xs && x in keep
    ensures forall x | x in xs && x in keep :: x in r
  {
    if xs == [] then []
    else
      var n := |xs| - 1;
      assert xs == xs[..n] + [xs[n]];
      Select(xs[..n], keep) + if xs[n] in keep then [xs[n]] else []
  }

  /** Living primaries that are not excluded; if there are none, living backends
      of any kind that are not excluded. */
  function Candidates<T>(all: seq<T>, alive: set<T>, backup: set<T>, exclude: set<T>): seq<T> {
    var primaries := Select(all, alive - backup - exclude);
    if primaries != [] then primaries else Select(all, alive - exclude)
  }

  /** Every candidate is alive and not excluded; a backup is one only when no
      living primary is left; and there is none exactly when every living
      backend is excluded. */
  lemma CandidatesMeaning<T>(all: seq<T>, alive: set<T>, backup: set<T>, exclude: set<T>, x: T)
    ensures var cs := Candidates(all, alive, backup, exclude);
            && (x in cs <==>
                && x in all && x in alive && x !in exclude
                && (x in backup ==> forall y | y in all && y in alive && y !in exclude :: y in backup))
            && (cs == [] <==> forall y | y in all && y in alive :: y in exclude)
  {
    var primaries := Select(all, alive - backup - exclude);
    if primaries != [] {
      assert primaries[0] in primaries;
    }
    var others := Select(all, alive - exclude);
    if others != [] {
      assert others[0] in others;
    }
  }

  /** A selection keeps the order of the list. */
  lemma {:induction false} SelectInOrder<T>(xs: seq<T>, keep: set<T>, i: nat, j: nat) returns (a: nat, b: nat)
    requires i < j < |Select(xs, keep)|
    ensures a < b < |xs| && xs[a] == Select(xs, keep)[i] && xs[b] == Select(xs, keep)[j]
  {
    var n := |xs| - 1;
    var front := Select(xs[..n], keep);
    if j < |front| {
      a, b := SelectInOrder(xs[..n], keep, i, j);
    } else {
      assert front[i] in xs[..n];
      a :| 0 <= a < n && xs[a] == front[i];
      b := n;
    }
  }

  lemma NoneOfNone<T>(alive: set<T>, backup: set<T>, exclude: set<T>)
    ensures Candidates<T>([], alive, backup, exclude) == []
  {
  }

  /** Only what is not excluded matters. */
  lemma CandidatesLocal<T>(all: seq<T>, alive: set<T>, now: set<T>, backup: set<T>, exclude: set<T>)
    requires alive - exclude == now - exclude
    ensures Candidates(all, alive, backup, exclude) == Candidates(all, now, backup, exclude)
  {
    assert alive - backup - exclude == (alive - exclude) - backup == now - backup - exclude;
  }

  function Elements<T>(xs: seq<T>): set<T> {
    set x | x in xs
  }

  /** Every entry of `trail` but the first was a candidate when the entries
      before it were excluded. */
  predicate WellPicked<T>(all: seq<T>, alive: set<T>, backup: set<T>, trail: seq<T>) {
    |trail| <= 1 ||
    var n := |trail| - 1;
    && WellPicked(all, alive, backup, trail[..n])
    && trail[n] in Candidates(all, alive, backup, Elements(trail[..n]))
  }

  /** Every entry after the first is alive and new, and it is a backup only when
      every living primary came before it. */
  lemma {:induction false} WellPickedMeaning<T>(all: seq<T>, alive: set<T>, backup: set<T>, trail: seq<T>, k: nat)
    requires WellPicked(all, alive, backup, trail) && 1 <= k < |trail|
    ensures trail[k] in all && trail[k] in alive && trail[k] !in trail[..k]
    ensures trail[k] in backup ==> forall b | b in all && b in alive && b !in backup :: b in trail[..k]
  {
    hide Candidates;
    var n := |trail| - 1;
    if k == n {
      CandidatesMeaning(all, alive, backup, Elements(trail[..n]), trail[n]);
    } else {
      WellPickedMeaning(all, alive, backup, trail[..n], k);
      assert trail[..n][k] == trail[k] && trail[..n][..k] == trail[..k];
    }
  }

  /** So no request reaches a backend twice, and there are no more attempts than
      backends. */
  lemma {:induction false} WellPickedDistinct<T>(all: seq<T>, alive: set<T>, backup: set<T>, trail: seq<T>)
    requires WellPicked(all, alive, backup, trail) && Elements(trail) <= Elements(all)
    ensures Distinct(trail) && |trail| <= |all|
  {
    hide Candidates, Elements;
    PickedDistinct(all, alive, backup, trail);
    DistinctSize(trail);
    ElementsSize(all);
    SubsetSize(Elements(trail), Elements(all));
  }

  lemma {:induction false} PickedDistinct<T>(all: seq<T>, alive: set<T>, backup: set<T>, trail: seq<T>)
    requires WellPicked(all, alive, backup, trail)
    ensures Distinct(trail)
  {
    hide Candidates;
    if |trail| > 1 {
      PickedDistinct(all, alive, backup, trail[..|trail| - 1]);
      WellPickedMeaning(all, alive, backup, trail, |trail| - 1);
    } else if |trail| == 1 {
      assert Distinct(trail[..0]);
    }
  }

  lemma {:induction false} DistinctSize<T>(xs: seq<T>)
    requires Distinct(xs)
    ensures |Elements(xs)| == |xs|
  {
    if xs == [] {
    } else {
      var n := |xs| - 1;
      DistinctSize(xs[..n]);
      assert xs == xs[..n] + [xs[n]];
      assert Elements(xs) == Elements(xs[..n]) + {xs[n]};
    }
  }

  lemma {:induction false} ElementsSize<T>(xs: seq<T>)
    ensures |Elements(xs)| <= |xs|
  {
    if xs == [] {
    } else {
      var n := |xs| - 1;
      ElementsSize(xs[..n]);
      assert xs == xs[..n] + [xs[n]];
      assert Elements(xs) == Elements(xs[..n]) + {xs[n]};
    }
  }

  lemma {:induction false} SubsetSize<T>(a: set<T>, b: set<T>)
    requires a <= b
    ensures |a| <= |b|
  {
    if a == {} {
    } else {
      var x :| x in a;
      SubsetSize(a - {x}, b - {x});
    }
  }

  lemma {:induction false} SelectDistinct<T>(xs: seq<T>, keep: set<T>)
    requires Distinct(xs)
    ensures Distinct(Select(xs, keep))
  {
    if xs == [] {
    } else {
      var n := |xs| - 1;
      SelectDistinct(xs[..n], keep);
      if xs[n] in keep {
        DistinctAppend(Select(xs[..n], keep), xs[n]);
      } else {
        assert Select(xs, keep) == Select(xs[..n], keep);
      }
    }
  }

  // ---------- Client hash ----------

  const UINT32 := 0x1_0000_0000

  function Xor(low: nat, b: bv8): (r: nat)
    requires low < 256
    ensures r < 256
  {
    Flipped(low as bv8, b)
  }

  function Flipped(l: bv8, b: bv8): (r: nat)
    ensures r < 256
  {
    (l ^ b) as nat
  }

  /** `h ^= b; h *= 16777619` in 32-bit arithmetic; a byte only touches the low
      eight bits. */
  function Mix(h: nat, b: bv8): (r: nat)
    ensures r < UINT32
  {
    var low := h % 256;
    (h - low + Xor(low, b)) * 16777619 % UINT32
  }

  /** 32-bit FNV-1a over the bytes of the client address. */
  function Fnv(s: seq<bv8>): (r: nat)
    ensures r < UINT32
  {
    if s == [] then 2166136261 else Mix(Fnv(s[..|s| - 1]), s[|s| - 1])
  }

  lemma SmallMultiple(d: int)
    requires d % UINT32 == 0 && -UINT32 < d < UINT32
    ensures d == 0
  {
  }

  lemma ModDifference(a: int, b: int)
    requires a % UINT32 == b % UINT32
    ensures (a - b) % UINT32 == 0
  {
  }

  lemma ProductsDiffer(base: int, x: nat, y: nat)
    requires x < 256 && y < 256 && (base + x) * 16777619 % UINT32 == (base + y) * 16777619 % UINT32
    ensures x == y
  {
    ModDifference((base + x) * 16777619, (base + y) * 16777619);
    SmallMultiple((x - y) * 16777619);
  }

  lemma FlippedTellsApart(l: bv8, a: bv8, b: bv8)
    requires a != b
    ensures Flipped(l, a) != Flipped(l, b)
  {
    assert l ^ a != l ^ b by { XorTellsApart(l, a, b); }
    Unequal(l ^ a, l ^ b);
  }

  lemma XorTellsApart(l: bv8, a: bv8, b: bv8)
    requires a != b
    ensures l ^ a != l ^ b
  {
    if l ^ a == l ^ b {
      XorCancels(l, a, b);
    }
  }

  lemma Unequal(u: bv8, v: bv8)
    requires u != v
    ensures u as nat != v as nat
  {
  }

  /** A step of the hash tells all bytes apart. */
  lemma MixIsInjective(h: nat, a: bv8, b: bv8)
    requires Mix(h, a) == Mix(h, b)
    ensures a == b
  {
    hide Flipped;
    var low := h % 256;
    ProductsDiffer(h - low, Xor(low, a), Xor(low, b));
    if a != b {
      FlippedTellsApart(low as bv8, a, b);
    }
  }

  lemma XorCancels(h: bv8, a: bv8, b: bv8)
    requires h ^ a == h ^ b
    ensures a == b
  {
    assert h ^ (h ^ a) == a && h ^ (h ^ b) == b;
  }

  /** The published vectors for the empty text and for "a". */
  lemma KnownHashes()
    ensures Fnv([]) == 0x811C9DC5 && Fnv([0x61]) == 0xE40C292C
  {
    assert [0x61 as bv8][..0] == [];
    assert 0x811C9DC5 % 256 == 0xC5;
    FirstXor();
    hide Xor;
    assert Mix(0x811C9DC5, 0x61) == (0x811C9DC5 - 0xC5 + 0xA4) * 16777619 % UINT32;
  }

  lemma FirstXor()
    ensures Xor(0xC5, 0x61) == 0xA4
  {
    assert (0xC5 as bv8) ^ (0x61 as bv8) == 0xA4 as bv8;
  }

  method Fnv32(s: seq<bv8>) returns (h: nat)
    ensures h == Fnv(s)
  {
    h := 2166136261;
    for i := 0 to |s|
      invariant h == Fnv(s[..i])
    {
      assert s[..i + 1][..i] == s[..i];
      h := Mix(h, s[i]);
    }
    assert s[..|s|] == s;
  }

  // ---------- Round robin ----------

  /** The backends that `k` consecutive calls pick when the counter stands at `rr`. */
  function Turns<T>(cands: seq<T>, rr: nat, k: nat): seq<T>
    requires cands != []
  {
    seq(k, j requires 0 <= j < k => cands[(rr + 1 + j) % |cands|])
  }

  /** Calls go on where earlier ones have left the counter. */
  lemma TurnsGoOn<T>(cands: seq<T>, rr: nat, k: nat)
    requires cands != []
    ensures Turns(cands, rr, k + 1) == Turns(cands, rr, k) + Turns(cands, rr + k, 1)
  {
  }

  lemma FirstTurn<T>(cands: seq<T>, rr: nat)
    ensures cands != [] ==> Turns(cands, rr, 1) == [cands[(rr + 1) % |cands|]]
  {
  }

  lemma ModShift(a: nat, j: nat, n: nat)
    requires 0 < n && j < n
    ensures (a + j) % n == if a % n + j < n then a % n + j else a % n + j - n
  {
    var q, m := a / n, a % n;
    assert a == q * n + m;
    if m + j < n {
      ModOf(q, m + j, n);
    } else {
      assert (q + 1) * n == q * n + n;
      ModOf(q + 1, m + j - n, n);
    }
  }

  lemma ModOf(q: nat, r: nat, n: nat)
    requires r < n
    ensures (q * n + r) % n == r
  {
    var x := q * n + r;
    assert x == n * (x / n) + x % n;
    Distribute(n, q, x / n);
    var d := q - x / n;
    if d > 0 {
      Distribute(n, d, 1);
    } else if d < 0 {
      Distribute(n, -d, 1);
    }
  }

  /** A full turn of round robin is a rotation of the candidates: each is picked
      exactly once, wherever the counter started. */
  lemma OneTurnEach<T>(cands: seq<T>, rr: nat)
    requires cands != []
    ensures var m := (rr + 1) % |cands|;
            Turns(cands, rr, |cands|) == cands[m..] + cands[..m]
    ensures multiset(Turns(cands, rr, |cands|)) == multiset(cands)
  {
    var n := |cands|;
    var m := (rr + 1) % n;
    forall j: nat | j < n
      ensures Turns(cands, rr, n)[j] == (cands[m..] + cands[..m])[j]
    {
      ModShift(rr + 1, j, n);
    }
    assert Turns(cands, rr, n) == cands[m..] + cands[..m];
    assert cands == cands[..m] + cands[m..];
  }

  // ---------- The pool ----------

  ghost function Cursors(bs: seq<Backend>): map<Backend, int>
    reads bs`curW
  {
    map b | b in bs :: b.curW
  }

  ghost function Weights(bs: seq<Backend>): map<Backend, int> {
    map b | b in bs :: b.weight
  }

  ghost function Living(bs: seq<Backend>): set<Backend>
    reads bs`alive
  {
    set b | b in bs && b.alive
  }

  ghost function Spares(bs: seq<Backend>): set<Backend> {
    set b | b in bs && b.backup
  }

  function Load(b: Backend): real
    requires b.weight != 0
    reads b`conns
  {
    b.conns as real / b.weight as real
  }

  /** Loads compare as connections times the other's weight. */
  lemma LoadsCompare(a: Backend, b: Backend)
    requires a.weight > 0 && b.weight > 0
    ensures Load(a) <= Load(b) <==> a.conns * b.weight <= b.conns * a.weight
    ensures Load(a) < Load(b) <==> a.conns * b.weight < b.conns * a.weight
  {
    Quotients(a.conns as real, a.weight as real, b.conns as real, b.weight as real);
    assert (a.conns * b.weight) as real == a.conns as real * b.weight as real;
    assert (b.conns * a.weight) as real == b.conns as real * a.weight as real;
  }

  lemma Quotients(a: real, v: real, b: real, w: real)
    requires v > 0.0 && w > 0.0
    ensures a / v <= b / w <==> a * w <= b * v
    ensures a / v < b / w <==> a * w < b * v
  {
    var x, y := a / v, b / w;
    assert x * v == a && y * w == b;
    assert a * w == x * (v * w) && b * v == y * (v * w);
    assert v * w > 0.0;
    ScaleUp(x, y, v * w);
  }

  lemma ScaleUp(x: real, y: real, c: real)
    requires c > 0.0
    ensures x <= y <==> x * c <= y * c
  {
    assert y * c - x * c == (y - x) * c;
    if x <= y {
      assert (y - x) * c >= 0.0;
    } else {
      assert (x - y) * c > 0.0;
      assert (x - y) * c == x * c - y * c;
    }
  }

  ghost predicate FirstLeastLoaded(cands: seq<Backend>, r: Backend)
    requires forall b | b in cands :: b.weight > 0
    reads cands`conns
  {
    exists j | 0 <= j < |cands| ::
      && cands[j] == r
      && (forall i | 0 <= i < |cands| :: Load(cands[j]) <= Load(cands[i]))
      && (forall i | 0 <= i < j :: Load(cands[j]) < Load(cands[i]))
  }

  class Pool {
    const strategy: string
    const backends: seq<Backend>
    var rr: nat

    ghost predicate Valid() {
      && Distinct(backends)
      && strategy != ""
      && forall b | b in backends :: b.weight > 0
    }

    constructor (strategy: string, backends: seq<Backend>)
      requires Distinct(backends) && forall b | b in backends :: b.weight > 0
      ensures Valid() && this.backends == backends && rr == 0
      ensures this.strategy == if strategy == "" then "round_robin" else strategy
    {
      this.strategy := if strategy == "" then "round_robin" else strategy;
      this.backends := backends;
      rr := 0;
    }

    /** `b.curW += amount`, seen as an update of the pool's cursor map. */
    method Charge(b: Backend, amount: int)
      requires b in backends
      modifies b`curW
      ensures b in Cursors(backends) && Cursors(backends)[b] == b.curW
      ensures var cur: map<Backend, int> := old(Cursors(backends));
              b in cur && Cursors(backends) == cur[b := cur[b] + amount]
    {
      b.curW := b.curW + amount;
    }

    /** The loop of smoothWeighted: adds every candidate's weight to its cursor
        and finds the first greatest. */
    method RaiseAll(cands: seq<Backend>) returns (pick: Backend, total: int)
      requires Valid() && cands != [] && Distinct(cands)
      requires forall i | 0 <= i < |cands| :: cands[i] in backends
      modifies backends`curW
      ensures total == Sum<Backend>(Weights(backends), cands)
      ensures Cursors(backends) == Bump<Backend>(old(Cursors(backends)), Weights(backends), cands)
      ensures pick == Best<Backend>(Cursors(backends), cands)
    {
      hide Bump, Best, Sum, Distinct;
      total, pick := 0, cands[0];
      ghost var w: map<Backend, int>, cur: map<Backend, int> := Weights(backends), Cursors(backends);
      LoopStart<Backend>(cur, w, cands);
      for i := 0 to |cands|
        invariant Cursors(backends) == Bump<Backend>(cur, w, cands[..i])
        invariant total == Sum<Backend>(w, cands[..i])
        invariant i > 0 ==> pick == Best<Backend>(Cursors(backends), cands[..i])
      {
        LoopStep<Backend>(cur, w, cands, i);
        var b := cands[i];
        Charge(b, b.weight);
        total := total + b.weight;
        if i == 0 || b.curW > pick.curW {
          pick := b;
        }
      }
      assert cands[..|cands|] == cands;
    }

    method SmoothWeighted(cands: seq<Backend>) returns (best: Backend?)
      requires Valid() && Distinct(cands) && forall i | 0 <= i < |cands| :: cands[i] in backends
      modifies backends`curW
      ensures cands == [] ==> best == null && Cursors(backends) == old(Cursors(backends))
      ensures cands != [] ==>
                var p := Pick<Backend>(old(Cursors(backends)), Weights(backends), cands);
                best == p.best && Cursors(backends) == p.cur
      ensures cands != [] ==>
                && best != null && (forall b | b in cands :: old(b.curW) + b.weight <= old(best.curW) + best.weight)
                && forall b | b in backends ::
                     b.curW == old(b.curW) + (if b in cands then b.weight else 0)
                               - (if b == best then Sum<Backend>(Weights(backends), cands) else 0)
    {
      hide Bump, Best, Sum, Distinct;
      if cands == [] {
        return null;
      }
      ghost var w: map<Backend, int>, cur: map<Backend, int> := Weights(backends), Cursors(backends);
      var pick, total := RaiseAll(cands);
      Charge(pick, -total);
      best := pick;
      forall b | b in backends
        ensures Cursors(backends)[b] == cur[b] + (if b in cands then w[b] else 0)
                                        - (if b == best then Sum<Backend>(w, cands) else 0)
      {
        PickAt<Backend>(cur, w, cands, b);
      }
      forall b | b in cands
        ensures cur[b] + w[b] <= cur[best] + w[best]
      {
        PickIsGreatest<Backend>(cur, w, cands, b);
      }
    }

    /** The candidates of a call made now. */
    ghost function CandidatesNow(exclude: set<Backend>): seq<Backend>
      reads backends`alive
    {
      Candidates<Backend>(backends, Living(backends), Spares(backends), exclude)
    }

    lemma CandidatesByFields(exclude: set<Backend>)
      ensures forall b :: b in CandidatesNow(exclude) <==>
                && b in backends && b.alive && b !in exclude
                && (b.backup ==> forall y | y in backends && y.alive && y !in exclude :: y.backup)
      ensures CandidatesNow(exclude) == [] <==> forall b | b in backends && b.alive :: b in exclude
    {
      hide Candidates;
      forall b
        ensures b in CandidatesNow(exclude) <==>
                && b in backends && b.alive && b !in exclude
                && (b.backup ==> forall y | y in backends && y.alive && y !in exclude :: y.backup)
      {
        CandidatesMeaning<Backend>(backends, Living(backends), Spares(backends), exclude, b);
      }
      if backends != [] {
        CandidatesMeaning<Backend>(backends, Living(backends), Spares(backends), exclude, backends[0]);
      } else {
        NoneOfNone<Backend>(Living(backends), Spares(backends), exclude);
      }
    }

    method Scan(exclude: set<Backend>, primariesOnly: bool) returns (cands: seq<Backend>)
      requires Valid()
      ensures var spare := if primariesOnly then Spares(backends) else {};
              cands == Select<Backend>(backends, Living(backends) - spare - exclude)
      ensures Distinct(cands)
      ensures forall b :: b in cands <==>
                b in backends && b.alive && b !in exclude && (primariesOnly ==> !b.backup)
    {
      cands := [];
      ghost var keep := Living(backends) - (if primariesOnly then Spares(backends) else {}) - exclude;
      for i := 0 to |backends|
        invariant cands == Select<Backend>(backends[..i], keep)
      {
        assert backends[..i + 1][..i] == backends[..i];
        var b := backends[i];
        if b !in exclude && b.alive && (!primariesOnly || !b.backup) {
          cands := cands + [b];
        }
      }
      assert backends[..|backends|] == backends;
      SelectDistinct(backends, keep);
    }

    method Gather(exclude: set<Backend>) returns (cands: seq<Backend>)
      requires Valid()
      ensures cands == CandidatesNow(exclude) && Distinct(cands)
      ensures forall b :: b in cands <==>
                && b in backends && b.alive && b !in exclude
                && (b.backup ==> forall y | y in backends && y.alive && y !in exclude :: y.backup)
    {
      CandidatesByFields(exclude);
      cands := Scan(exclude, true);
      if |cands| == 0 {
        cands := Scan(exclude, false);
        assert Living(backends) - {} - exclude == Living(backends) - exclude;
      }
    }

    /** Null exactly when every living backend is excluded; otherwise the
        candidate that the strategy names. */
    method Next(clientIP: seq<bv8>, exclude: set<Backend>, nanos: nat) returns (r: Backend?)
      requires Valid()
      modifies this`rr, backends`curW
      // who can be picked
      ensures r == null <==> forall b | b in backends && b.alive :: b in exclude
      ensures r != null ==>
                && r in backends && r.alive && r !in exclude
                && (r.backup ==> forall b | b in backends && b.alive && b !in exclude :: b.backup)
      ensures r == null <==> old(CandidatesNow(exclude)) == []
      ensures r != null ==> r in old(CandidatesNow(exclude))
      // who is picked
      ensures r != null && strategy == "random" ==>
                var cands := old(CandidatesNow(exclude));
                r == cands[nanos % |cands|]
      ensures r != null && strategy == "least_conn" ==>
                && FirstLeastLoaded(old(CandidatesNow(exclude)), r)
                && forall b | b in old(CandidatesNow(exclude)) :: r.conns * b.weight <= b.conns * r.weight
      ensures r != null && strategy == "ip_hash" ==>
                var cands := old(CandidatesNow(exclude));
                r == cands[Fnv(clientIP) % |cands|]
      ensures r != null && strategy !in {"random", "least_conn", "ip_hash", "weighted"} ==>
                var cands := old(CandidatesNow(exclude));
                && rr == old(rr) + 1 && r == cands[rr % |cands|] && [r] == Turns(cands, old(rr), 1)
      ensures r != null && strategy == "weighted" ==>
                var cands := old(CandidatesNow(exclude));
                var p := Pick<Backend>(old(Cursors(backends)), Weights(backends), cands);
                && r == p.best && Cursors(backends) == p.cur
                && (forall b | b in cands :: old(b.curW) + b.weight <= old(r.curW) + r.weight)
                && forall b | b in backends ::
                     b.curW == old(b.curW) + (if b in cands then b.weight else 0)
                               - (if b == r then Sum<Backend>(Weights(backends), cands) else 0)
      // what changes
      ensures r == null || strategy != "weighted" ==> unchanged(backends`curW)
      ensures r == null || strategy in {"random", "least_conn", "ip_hash", "weighted"} ==> rr == old(rr)
    {
      hide CandidatesNow, Pick, Turns, Fnv;
      CandidatesByFields(exclude);
      FirstTurn<Backend>(CandidatesNow(exclude), rr);
      var cands := Gather(exclude);
      if |cands| == 0 {
        return null;
      }
      if strategy == "random" {
        r := cands[nanos % |cands|];
      } else if strategy == "least_conn" {
        r := LeastLoaded(cands);
      } else if strategy == "ip_hash" {
        var h := Fnv32(clientIP);
        r := cands[h % |cands|];
      } else if strategy == "weighted" {
        r := SmoothWeighted(cands);
      } else {
        rr := rr + 1;
        r := cands[rr % |cands|];
      }
    }

    method LeastLoaded(cands: seq<Backend>) returns (best: Backend)
      requires cands != [] && forall b | b in cands :: b.weight > 0
      ensures best in cands && FirstLeastLoaded(cands, best)
      ensures forall b | b in cands :: best.conns * b.weight <= b.conns * best.weight
    {
      best := cands[0];
      var bestScore := Load(best);
      ghost var at := 0;
      for k := 1 to |cands|
        invariant 0 <= at < k && cands[at] == best && bestScore == Load(best)
        invariant forall i | 0 <= i < k :: Load(cands[at]) <= Load(cands[i])
        invariant forall i | 0 <= i < at :: Load(cands[at]) < Load(cands[i])
      {
        var s := Load(cands[k]);
        if s < bestScore {
          best, bestScore, at := cands[k], s, k;
        }
      }
      hide Load;
      forall b | b in cands
        ensures best.conns * b.weight <= b.conns * best.weight
      {
        LoadsCompare(best, b);
      }
    }
  }
}
