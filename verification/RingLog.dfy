/** The access log: a list that grows to its capacity and is then overwritten in
    place, oldest entry first. */
module RingLog {

  datatype Ring<T> = Ring(logs: seq<T>, pos: nat, cap: nat) {
    ghost predicate Valid() {
      cap > 0 && |logs| <= cap && pos < cap && (|logs| < cap ==> pos == 0)
    }
  }

  /** What is kept, oldest first. */
  function Retained<T>(r: Ring<T>): seq<T>
    requires r.Valid()
  {
    r.logs[r.pos..] + r.logs[..r.pos]
  }

  function Push<T>(r: Ring<T>, x: T): (r': Ring<T>)
    requires r.Valid()
    ensures r'.Valid() && r'.cap == r.cap
  {
    if |r.logs| < r.cap then r.(logs := r.logs + [x])
    else r.(logs := r.logs[r.pos := x], pos := (r.pos + 1) % r.cap)
  }

  datatype Op<T> = Ended(x: T) | Cleared

  function After<T>(cap: nat, ops: seq<Op<T>>): (r: Ring<T>)
    requires cap > 0
    ensures r.Valid() && r.cap == cap
  {
    if ops == [] then Ring([], 0, cap)
    else
      var r := After(cap, ops[..|ops| - 1]);
      match ops[|ops| - 1]
      case Ended(x) => Push(r, x)
      case Cleared => Ring([], 0, cap)
  }

  /** The entries since the last clear, oldest first. */
  function SinceClear<T>(ops: seq<Op<T>>): seq<T> {
    if ops == [] then []
    else
      match ops[|ops| - 1]
      case Ended(x) => SinceClear(ops[..|ops| - 1]) + [x]
      case Cleared => []
  }

  /** The last `n` entries of a list, or all of it. */
  function LastOf<T>(s: seq<T>, n: nat): seq<T> {
    if |s| <= n then s else s[|s| - n..]
  }

  function Reversed<T>(s: seq<T>): (r: seq<T>)
    ensures |r| == |s| && forall i | 0 <= i < |s| :: r[i] == s[|s| - 1 - i]
  {
    if s == [] then [] else [s[|s| - 1]] + Reversed(s[..|s| - 1])
  }

  lemma PushRetains<T>(r: Ring<T>, x: T)
    requires r.Valid()
    ensures Retained(Push(r, x)) == LastOf(Retained(r) + [x], r.cap)
  {
    if |r.logs| == r.cap {
      NextSlot(r.pos, r.cap);
      OverwriteRetains(r, x, if r.pos + 1 == r.cap then 0 else r.pos + 1);
    }
  }

  lemma NextSlot(pos: nat, cap: nat)
    requires pos < cap
    ensures (pos + 1) % cap == if pos + 1 == cap then 0 else pos + 1
  {
  }

  lemma OverwriteRetains<T>(r: Ring<T>, x: T, next: nat)
    requires r.Valid() && |r.logs| == r.cap && next == if r.pos + 1 == r.cap then 0 else r.pos + 1
    ensures Retained(r.(logs := r.logs[r.pos := x], pos := next)) == Retained(r)[1..] + [x]
    ensures LastOf(Retained(r) + [x], r.cap) == Retained(r)[1..] + [x]
  {
    var before, after := r.logs[..r.pos], r.logs[r.pos + 1..];
    assert r.logs == before + [r.logs[r.pos]] + after;
    assert r.logs[r.pos := x] == before + [x] + after;
    assert Retained(r) == [r.logs[r.pos]] + (after + before);
  }

  lemma LastOfLast<T>(s: seq<T>, x: T, n: nat)
    requires n > 0
    ensures LastOf(LastOf(s, n) + [x], n) == LastOf(s + [x], n)
  {
  }

  /** The ring holds the newest entries since the last clear, as many as fit. */
  lemma {:induction false} RetainsNewest<T>(cap: nat, ops: seq<Op<T>>)
    requires cap > 0
    ensures Retained(After(cap, ops)) == LastOf(SinceClear(ops), cap)
  {
    if ops == [] {
    } else {
      var n := |ops| - 1;
      RetainsNewest(cap, ops[..n]);
      if ops[n].Ended? {
        PushRetains(After(cap, ops[..n]), ops[n].x);
        LastOfLast(SinceClear(ops[..n]), ops[n].x, cap);
      }
    }
  }

  /** How many entries a caller of Logs gets. */
  function Given(kept: nat, limit: int): (n: nat)
    ensures n <= kept
  {
    if limit <= 0 || limit > kept then kept else limit
  }

  lemma RetainedSize<T>(r: Ring<T>)
    requires r.Valid()
    ensures |Retained(r)| == |r.logs|
  {
  }

  /** Where the i-th newest entry stands. */
  lemma NewestAt<T>(r: Ring<T>, i: nat)
    requires r.Valid() && i < |r.logs|
    ensures var n := |r.logs|;
            |Retained(r)| == n && Retained(r)[n - 1 - i] == r.logs[(r.pos + n - 1 - i + n) % n]
  {
    var n := |r.logs|;
    var k := r.pos + n - 1 - i;
    Wrap(k, n);
    if n < r.cap {
      assert r.pos == 0;
    }
  }

  lemma Wrap(k: nat, n: nat)
    requires 0 < n && k < 2 * n
    ensures (k + n) % n == if k < n then k else k - n
  {
  }

  /** What Logs returns. */
  function Listing<T>(r: Ring<T>, limit: int): seq<T>
    requires r.Valid()
  {
    Reversed(LastOf(Retained(r), Given(|Retained(r)|, limit)))
  }

  lemma ListingAt<T>(r: Ring<T>, limit: int)
    requires r.Valid()
    ensures var out, kept := Listing(r, limit), Retained(r);
            && |out| == (if 0 < limit < |kept| then limit else |kept|)
            && forall i | 0 <= i < |out| :: out[i] == kept[|kept| - 1 - i]
  {
  }

  lemma LastOfAt<T>(s: seq<T>, n: nat)
    ensures var l := LastOf(s, n);
            && |l| == (if |s| < n then |s| else n)
            && forall i | 0 <= i < |l| :: l[i] == s[|s| - |l| + i]
  {
  }

  /** The newest entries since the last clear, newest first: as many as were asked for,
      or all that are kept if none or more than those were. */
  lemma LogsAreNewestFirst<T>(cap: nat, ops: seq<Op<T>>, limit: int)
    requires cap > 0
    ensures var out, s := Listing(After(cap, ops), limit), SinceClear(ops);
            var kept := if |s| < cap then |s| else cap;
            && (limit <= 0 || limit >= kept ==> |out| == kept)
            && (0 < limit < kept ==> |out| == limit)
            && forall i | 0 <= i < |out| :: out[i] == s[|s| - 1 - i]
  {
    hide Listing, Retained, LastOf, After, SinceClear;
    RetainsNewest(cap, ops);
    ListingAt(After(cap, ops), limit);
    LastOfAt(SinceClear(ops), cap);
  }
}
