/** A configured route: its defaults, the order in which routes are kept, and the
    in-place normalisation that establishes both. */
module Routes {
  import opened Text

  datatype Health = Health(enabled: bool, interval: int, timeout: int, fails: int, passes: int)

  datatype Route = Route(
    id: string, enabled: bool, host: string, path: string, kind: string, mode: string, scheme: string,
    priority: int, weights: seq<int>, lb: string, health: Health, createdAt: Option<int>, updatedAt: int)

  // ---------- Order ----------

  /** The comparator handed to the sort. */
  predicate Less(a: Route, b: Route) {
    if a.priority != b.priority then a.priority > b.priority
    else if a.host != "" && b.host == "" then true
    else |a.path| > |b.path|
  }

  /** Same priority, `a` names a host and `b` does not, but `b` has the longer
      path: each is Less than the other. */
  predicate Conflict(a: Route, b: Route) {
    a.priority == b.priority && a.host != "" && b.host == "" && |b.path| > |a.path|
  }

  predicate Clash(a: Route, b: Route) {
    Conflict(a, b) || Conflict(b, a)
  }

  /** The comparator is asymmetric exactly on pairs that do not clash. */
  lemma AsymmetricExactly(a: Route, b: Route)
    ensures Less(a, b) && Less(b, a) <==> Clash(a, b)
  {
  }

  datatype Rank = Rank(priority: int, hosted: bool, length: nat)

  function RankOf(r: Route): Rank {
    Rank(r.priority, r.host != "", |r.path|)
  }

  /** Higher priority first, then named hosts, then longer paths. */
  predicate Precedes(a: Rank, b: Rank) {
    if a.priority != b.priority then a.priority > b.priority
    else if a.hosted != b.hosted then a.hosted
    else a.length > b.length
  }

  lemma LessIsPrecedes(a: Route, b: Route)
    requires !Clash(a, b)
    ensures Less(a, b) <==> Precedes(RankOf(a), RankOf(b))
  {
  }

  // ---------- Sorting ----------

  /** One insertion: `x` moves left while it is Less than its neighbour. */
  function Insert(p: seq<Route>, x: Route): (r: seq<Route>)
    ensures |r| == |p| + 1
  {
    if p == [] || !Less(x, p[|p| - 1]) then p + [x]
    else Insert(p[..|p| - 1], x) + [p[|p| - 1]]
  }

  function Sort(s: seq<Route>): (r: seq<Route>)
    ensures |r| == |s|
  {
    if s == [] then [] else Insert(Sort(s[..|s| - 1]), s[|s| - 1])
  }

  predicate Compatible(p: seq<Route>, x: Route) {
    p == [] || (Compatible(p[..|p| - 1], x) && !Clash(p[|p| - 1], x))
  }

  /** No two routes of the list clash. */
  predicate Clean(s: seq<Route>) {
    s == [] || (Clean(s[..|s| - 1]) && Compatible(s[..|s| - 1], s[|s| - 1]))
  }

  predicate Ordered(s: seq<Route>) {
    |s| <= 1 ||
    var n := |s| - 1;
    Ordered(s[..n]) && !Precedes(RankOf(s[n]), RankOf(s[n - 1]))
  }

  /** The routes of one rank, in their order. */
  function OfRank(s: seq<Route>, k: Rank): seq<Route> {
    if s == [] then []
    else OfRank(s[..|s| - 1], k) + if RankOf(s[|s| - 1]) == k then [s[|s| - 1]] else []
  }

  lemma {:induction false} CleanMeaning(s: seq<Route>)
    ensures Clean(s) <==> forall i, j | 0 <= i < j < |s| :: !Clash(s[i], s[j])
  {
    hide Clash;
    if s == [] {
    } else {
      var n := |s| - 1;
      CleanMeaning(s[..n]);
      CompatibleMeaning(s[..n], s[n]);
      assert forall i | 0 <= i < n :: s[..n][i] == s[i];
    }
  }

  lemma {:induction false} CompatibleMeaning(p: seq<Route>, x: Route)
    ensures Compatible(p, x) <==> forall i | 0 <= i < |p| :: !Clash(p[i], x)
  {
    hide Clash;
    if p == [] {
    } else {
      var n := |p| - 1;
      CompatibleMeaning(p[..n], x);
      assert forall i | 0 <= i < n :: p[..n][i] == p[i];
    }
  }

  lemma {:induction false} OrderedMeaning(s: seq<Route>, i: nat, j: nat)
    requires Ordered(s) && i < j < |s|
    ensures !Precedes(RankOf(s[j]), RankOf(s[i]))
  {
    var n := |s| - 1;
    if j < n {
      OrderedMeaning(s[..n], i, j);
    } else if i < n - 1 {
      OrderedMeaning(s[..n], i, n - 1);
      assert s[..n][n - 1] == s[n - 1];
    }
  }

  lemma {:induction false} InsertCompatible(p: seq<Route>, x: Route, y: Route)
    requires Compatible(p, y) && !Clash(x, y)
    ensures Compatible(Insert(p, x), y)
  {
    hide Clash, Less;
    if p == [] || !Less(x, p[|p| - 1]) {
      assert (p + [x])[..|p|] == p;
    } else {
      var n := |p| - 1;
      InsertCompatible(p[..n], x, y);
      assert Insert(p, x)[..|p|] == Insert(p[..n], x);
    }
  }

  lemma {:induction false} SortCompatible(s: seq<Route>, y: Route)
    requires Compatible(s, y)
    ensures Compatible(Sort(s), y)
  {
    hide Clash, Insert;
    if s == [] {
    } else {
      var n := |s| - 1;
      SortCompatible(s[..n], y);
      InsertCompatible(Sort(s[..n]), s[n], y);
    }
  }

  lemma {:induction false} InsertOrdered(p: seq<Route>, x: Route)
    requires Ordered(p) && Compatible(p, x)
    ensures Ordered(Insert(p, x))
    ensures var r := Insert(p, x); r[|p|] == x || (p != [] && r[|p|] == p[|p| - 1])
  {
    hide Clash, Less, Precedes, RankOf;
    if p == [] {
    } else {
      var n := |p| - 1;
      var last := p[n];
      ClashSymmetric(x, last);
      LessIsPrecedes(x, last);
      if Less(x, last) {
        InsertOrdered(p[..n], x);
        var front := Insert(p[..n], x);
        assert Insert(p, x)[..n + 1] == front;
        AntiSymmetric(x, last);
      } else {
        assert (p + [x])[..n + 1] == p;
      }
    }
  }

  lemma AntiSymmetric(a: Route, b: Route)
    requires Precedes(RankOf(a), RankOf(b))
    ensures !Precedes(RankOf(b), RankOf(a)) && RankOf(a) != RankOf(b)
  {
  }

  lemma OfRankAppend(s: seq<Route>, x: Route, k: Rank)
    ensures OfRank(s + [x], k) == OfRank(s, k) + if RankOf(x) == k then [x] else []
  {
    hide RankOf;
    assert (s + [x])[..|s|] == s;
  }

  lemma {:induction false} InsertOfRank(p: seq<Route>, x: Route, k: Rank)
    requires Compatible(p, x)
    ensures OfRank(Insert(p, x), k) == OfRank(p + [x], k)
  {
    hide Clash, Less, Precedes, RankOf, OfRank;
    if p == [] || !Less(x, p[|p| - 1]) {
    } else {
      var n := |p| - 1;
      var y, front := p[n], Insert(p[..n], x);
      InsertOfRank(p[..n], x, k);
      ClashSymmetric(x, y);
      LessIsPrecedes(x, y);
      AntiSymmetric(x, y);
      OfRankAppend(front, y, k);
      OfRankAppend(p[..n], x, k);
      OfRankAppend(p[..n], y, k);
      OfRankAppend(p, x, k);
      assert p == p[..n] + [y];
    }
  }

  /** On a clean list the sort is a stable sort: the result is in order, and the
      routes of every rank keep their order. */
  lemma {:induction false} SortIsStableSort(s: seq<Route>)
    requires Clean(s)
    ensures Ordered(Sort(s)) && Clean(Sort(s))
    ensures forall k :: OfRank(Sort(s), k) == OfRank(s, k)
  {
    hide Clash, Insert, RankOf, Precedes;
    if s == [] {
    } else {
      var n := |s| - 1;
      var front := Sort(s[..n]);
      SortIsStableSort(s[..n]);
      SortCompatible(s[..n], s[n]);
      InsertOrdered(front, s[n]);
      InsertClean(front, s[n]);
      forall k
        ensures OfRank(Sort(s), k) == OfRank(s, k)
      {
        InsertOfRank(front, s[n], k);
        assert (front + [s[n]])[..n] == front;
      }
    }
  }

  lemma {:induction false} InsertClean(p: seq<Route>, x: Route)
    requires Clean(p) && Compatible(p, x)
    ensures Clean(Insert(p, x))
  {
    hide Clash, Less;
    if p == [] || !Less(x, p[|p| - 1]) {
      assert (p + [x])[..|p|] == p;
    } else {
      var n := |p| - 1;
      InsertClean(p[..n], x);
      ClashSymmetric(x, p[n]);
      InsertCompatible(p[..n], x, p[n]);
      assert Insert(p, x)[..n + 1] == Insert(p[..n], x);
    }
  }

  lemma ClashSymmetric(a: Route, b: Route)
    ensures Clash(a, b) == Clash(b, a)
  {
  }

  lemma {:induction false} MemberOfRank(s: seq<Route>, x: Route)
    ensures x in s <==> x in OfRank(s, RankOf(x))
  {
    hide RankOf;
    if s == [] {
    } else {
      var n := |s| - 1;
      MemberOfRank(s[..n], x);
      assert s == s[..n] + [s[n]];
    }
  }

  lemma Irreflexive(a: Rank)
    ensures !Precedes(a, a)
  {
  }

  lemma OrderedLast(s: seq<Route>, y: Route)
    requires Ordered(s) && y in s
    ensures !Precedes(RankOf(s[|s| - 1]), RankOf(y))
  {
    hide Ordered, Precedes, RankOf;
    Irreflexive(RankOf(y));
    var i :| 0 <= i < |s| && s[i] == y;
    if i < |s| - 1 {
      OrderedMeaning(s, i, |s| - 1);
    }
  }

  lemma Trichotomy(a: Rank, b: Rank)
    ensures Precedes(a, b) || Precedes(b, a) || a == b
  {
  }

  /** There is only one stable sort: lists in order that agree on every rank are
      equal, so any stable algorithm leaves what Sort leaves. */
  lemma {:induction false} StableSortIsUnique(s: seq<Route>, t: seq<Route>)
    requires Ordered(s) && Ordered(t) && forall k :: OfRank(s, k) == OfRank(t, k)
    ensures s == t
  {
    hide Precedes, RankOf, OfRank, Ordered;
    if s == [] || t == [] {
      if s != [] {
        MemberOfRank(s, s[0]);
        MemberOfRank(t, s[0]);
      }
      if t != [] {
        MemberOfRank(s, t[0]);
        MemberOfRank(t, t[0]);
      }
    } else {
      var n, m := |s| - 1, |t| - 1;
      var x, y := s[n], t[m];
      SameLastRank(s, t);
      OrderedFront(s);
      OrderedFront(t);
      forall k
        ensures OfRank(s[..n], k) == OfRank(t[..m], k)
      {
        assert OfRank(s, k) == OfRank(t, k);
        OfRankFront(s, k);
        OfRankFront(t, k);
      }
      OfRankFront(s, RankOf(x));
      OfRankFront(t, RankOf(y));
      assert OfRank(s, RankOf(x)) == OfRank(t, RankOf(x));
      StableSortIsUnique(s[..n], t[..m]);
    }
  }

  lemma OfRankFront(s: seq<Route>, k: Rank)
    requires s != []
    ensures var n, all := |s| - 1, OfRank(s, k);
            OfRank(s[..n], k) == if RankOf(s[n]) == k && all != [] then all[..|all| - 1] else all
    ensures RankOf(s[|s| - 1]) == k ==> OfRank(s, k) != [] && OfRank(s, k)[|OfRank(s, k)| - 1] == s[|s| - 1]
  {
    hide RankOf;
  }

  lemma OrderedFront(s: seq<Route>)
    requires s != [] && Ordered(s)
    ensures Ordered(s[..|s| - 1])
  {
  }

  lemma SameLastRank(s: seq<Route>, t: seq<Route>)
    requires s != [] && t != [] && Ordered(s) && Ordered(t) && forall k :: OfRank(s, k) == OfRank(t, k)
    ensures RankOf(s[|s| - 1]) == RankOf(t[|t| - 1])
  {
    hide Precedes, RankOf, OfRank, Ordered;
    var x, y := s[|s| - 1], t[|t| - 1];
    MemberOfRank(s, x);
    MemberOfRank(t, x);
    MemberOfRank(s, y);
    MemberOfRank(t, y);
    OrderedLast(s, y);
    OrderedLast(t, x);
    Trichotomy(RankOf(x), RankOf(y));
  }

  lemma {:induction false} SortOrdered(s: seq<Route>)
    requires Ordered(s) && Clean(s)
    ensures Sort(s) == s
  {
    hide Clash, Precedes, RankOf, Less;
    if s == [] {
    } else {
      var n := |s| - 1;
      SortOrdered(s[..n]);
      if n > 0 {
        assert s[..n][n - 1] == s[n - 1] && Compatible(s[..n], s[n]);
        ClashSymmetric(s[n - 1], s[n]);
        LessIsPrecedes(s[n], s[n - 1]);
      }
      assert s == s[..n] + [s[n]];
    }
  }

  /** By themselves, two clashing routes change places every time they are sorted. */
  lemma ClashingPairSwaps(a: Route, b: Route)
    requires Conflict(a, b)
    ensures Sort([a, b]) == [b, a] && Sort([b, a]) == [a, b]
  {
    SortPair(a, b);
    SortPair(b, a);
  }

  lemma SortPair(a: Route, b: Route)
    ensures Sort([a, b]) == if Less(b, a) then [b, a] else [a, b]
  {
    hide Less;
    assert [a, b][..1] == [a] && [a][..0] == [];
    assert Sort([a]) == Insert([], a) == [a];
    assert Sort([a, b]) == Insert([a], b);
    assert Less(b, a) ==> Insert([a], b) == Insert([a][..0], b) + [a];
  }

  /** The order on the fields: higher priority first, then routes that name a host,
      then longer paths. */
  lemma SortedByFields(s: seq<Route>, i: nat, j: nat)
    requires Clean(s) && i < j < |s|
    ensures var a, b := Sort(s)[i], Sort(s)[j];
            && a.priority >= b.priority
            && (a.priority == b.priority ==> b.host == "" || a.host != "")
            && (a.priority == b.priority && (a.host == "") == (b.host == "") ==> |a.path| >= |b.path|)
  {
    hide Sort, Clean;
    SortIsStableSort(s);
    OrderedMeaning(Sort(s), i, j);
  }

  // ---------- Sorting again ----------

  /** No route is Less than the one before it. */
  predicate Stays(t: seq<Route>) {
    |t| <= 1 ||
    var n := |t| - 1;
    Stays(t[..n]) && !Less(t[n], t[n - 1])
  }

  lemma StaysStep(t: seq<Route>)
    ensures Stays(t) <==> |t| <= 1 || (Stays(t[..|t| - 1]) && !Less(t[|t| - 1], t[|t| - 2]))
  {
    hide Less;
  }

  lemma InsertLast(p: seq<Route>, x: Route)
    ensures Insert(p, x)[|p|] == if p == [] || !Less(x, p[|p| - 1]) then x else p[|p| - 1]
    ensures p == [] || !Less(x, p[|p| - 1]) ==> Insert(p, x) == p + [x]
  {
    hide Less;
  }

  lemma NotLessThanItself(x: Route)
    ensures !Less(x, x)
  {
  }

  /** Sorting leaves exactly these lists alone. */
  lemma {:induction false} SortedStaysExactly(t: seq<Route>)
    ensures Sort(t) == t <==> Stays(t)
  {
    hide Less, Insert;
    if t == [] {
    } else {
      var n := |t| - 1;
      var front := Sort(t[..n]);
      SortedStaysExactly(t[..n]);
      InsertLast(front, t[n]);
      NotLessThanItself(t[n]);
      if Sort(t) == t {
        assert front == (front + [t[n]])[..n] == t[..n];
      }
      assert t == t[..n] + [t[n]];
    }
  }

  lemma NotLessIsTransitive(a: Route, b: Route, c: Route)
    requires !Less(b, a) && !Less(c, b)
    ensures !Less(c, a)
  {
  }

  lemma {:induction false} StaysMeaning(t: seq<Route>, i: nat, j: nat)
    requires Stays(t) && i < j < |t|
    ensures !Less(t[j], t[i])
  {
    hide Less;
    var n := |t| - 1;
    if j < n {
      StaysMeaning(t[..n], i, j);
    } else if i < n - 1 {
      StaysMeaning(t[..n], i, n - 1);
      assert t[..n][n - 1] == t[n - 1];
      NotLessIsTransitive(t[i], t[n - 1], t[n]);
    }
  }

  lemma StaysIsClean(t: seq<Route>)
    requires Stays(t)
    ensures Clean(t)
  {
    hide Less, Clash, Stays, Clean;
    forall i, j | 0 <= i < j < |t|
      ensures !Clash(t[i], t[j])
    {
      StaysMeaning(t, i, j);
      AsymmetricExactly(t[i], t[j]);
    }
    CleanMeaning(t);
  }

  lemma {:induction false} InsertMembers(p: seq<Route>, x: Route, y: Route)
    ensures y in Insert(p, x) <==> y in p || y == x
  {
    hide Less;
    if p == [] || !Less(x, p[|p| - 1]) {
    } else {
      var n := |p| - 1;
      InsertMembers(p[..n], x, y);
      assert p == p[..n] + [p[n]];
    }
  }

  lemma {:induction false} SortMembers(s: seq<Route>, y: Route)
    ensures y in Sort(s) <==> y in s
  {
    hide Insert;
    if s == [] {
    } else {
      var n := |s| - 1;
      SortMembers(s[..n], y);
      InsertMembers(Sort(s[..n]), s[n], y);
      assert s == s[..n] + [s[n]];
    }
  }

  /** A clean list is one no two members of which clash, wherever they stand. */
  lemma CleanIsAboutMembers(s: seq<Route>)
    ensures Clean(s) <==> forall a, b | a in s && b in s :: !Clash(a, b)
  {
    hide Clash, Clean;
    CleanMeaning(s);
    if Clean(s) {
      forall a, b | a in s && b in s
        ensures !Clash(a, b)
      {
        var i, j :| 0 <= i < |s| && s[i] == a && 0 <= j < |s| && s[j] == b;
        ClashSymmetric(a, b);
        NoClashWithItself(a);
      }
    }
  }

  lemma NoClashWithItself(a: Route)
    ensures !Clash(a, a)
  {
  }

  lemma SortKeepsClashes(s: seq<Route>)
    ensures Clean(Sort(s)) <==> Clean(s)
  {
    hide Clash, Clean, Sort;
    CleanIsAboutMembers(s);
    CleanIsAboutMembers(Sort(s));
    forall y
      ensures y in Sort(s) <==> y in s
    {
      SortMembers(s, y);
    }
  }

  /** Sorting a table again changes nothing exactly when no two of its routes clash. */
  lemma ResortingIsIdleExactly(s: seq<Route>)
    ensures Sort(Sort(s)) == Sort(s) <==> Clean(s)
  {
    hide Sort, Clean, Stays;
    SortKeepsClashes(s);
    SortedStaysExactly(Sort(s));
    if Clean(s) {
      SortIsStableSort(s);
      SortOrdered(Sort(s));
    } else if Stays(Sort(s)) {
      StaysIsClean(Sort(s));
    }
  }

  /** A clashing pair may well keep its places when other routes stand between. */
  lemma ClashBetweenEquals(a: Route, b: Route, c: Route)
    requires Conflict(a, b) && Conflict(c, b) && |a.path| == |c.path|
    ensures Sort([a, b, c]) == [b, a, c] && Clash(b, c)
  {
    assert [a, b, c][..2] == [a, b];
    SortPair(a, b);
    InsertLast([b, a], c);
  }

  // ---------- Priority ----------

  /** Priorities never rise along the list. */
  predicate ByPriority(s: seq<Route>) {
    |s| <= 1 ||
    var n := |s| - 1;
    ByPriority(s[..n]) && s[n].priority <= s[n - 1].priority
  }

  lemma {:induction false} ByPriorityMeaning(s: seq<Route>, i: nat, j: nat)
    requires ByPriority(s) && i < j < |s|
    ensures s[j].priority <= s[i].priority
  {
    var n := |s| - 1;
    if j < n {
      ByPriorityMeaning(s[..n], i, j);
    } else if i < n - 1 {
      ByPriorityMeaning(s[..n], i, n - 1);
      assert s[..n][n - 1] == s[n - 1];
    }
  }

  lemma LessGoesByPriority(a: Route, b: Route)
    ensures if Less(a, b) then a.priority >= b.priority else a.priority <= b.priority
  {
  }

  lemma ByPriorityAppend(s: seq<Route>, x: Route)
    requires ByPriority(s) && (s != [] ==> x.priority <= s[|s| - 1].priority)
    ensures ByPriority(s + [x])
  {
    var longer := s + [x];
    assert |longer| - 1 == |s| && longer[..|s|] == s && longer[|s|] == x;
    if s != [] {
      assert longer[|s| - 1] == s[|s| - 1];
    }
  }

  lemma ByPriorityFront(s: seq<Route>)
    requires ByPriority(s) && s != []
    ensures ByPriority(s[..|s| - 1]) && (|s| > 1 ==> s[|s| - 1].priority <= s[|s| - 2].priority)
  {
  }

  lemma {:induction false} InsertByPriority(p: seq<Route>, x: Route)
    requires ByPriority(p)
    ensures ByPriority(Insert(p, x))
  {
    hide Less, ByPriority;
    if p == [] || !Less(x, p[|p| - 1]) {
      if p != [] {
        LessGoesByPriority(x, p[|p| - 1]);
      }
      ByPriorityAppend(p, x);
    } else {
      var n := |p| - 1;
      ByPriorityFront(p);
      InsertByPriority(p[..n], x);
      InsertLast(p[..n], x);
      LessGoesByPriority(x, p[n]);
      ByPriorityAppend(Insert(p[..n], x), p[n]);
    }
  }

  /** Clashes or not, sorting puts higher priorities first. */
  lemma {:induction false} SortGoesByPriority(s: seq<Route>)
    ensures ByPriority(Sort(s))
  {
    hide Insert, ByPriority;
    if s == [] {
      assert ByPriority([]) by { NothingByPriority(); }
    } else {
      var n := |s| - 1;
      SortGoesByPriority(s[..n]);
      InsertByPriority(Sort(s[..n]), s[n]);
    }
  }

  lemma NothingByPriority()
    ensures ByPriority([])
  {
  }

  lemma {:induction false} OrderedByPriority(s: seq<Route>)
    requires Ordered(s)
    ensures ByPriority(s)
  {
    if |s| <= 1 {
    } else {
      OrderedByPriority(s[..|s| - 1]);
    }
  }

  /** Routes of one priority that all name a host, or none of which does, never
      clash. */
  lemma UniformHostsAreClean(s: seq<Route>)
    requires forall a, b | a in s && b in s && a.priority == b.priority :: (a.host == "") == (b.host == "")
    ensures Clean(s)
  {
    CleanMeaning(s);
  }
}
