/** Requests per second over the last minute, in sixty slots indexed by the second
    modulo sixty. Slots are cleared when a request arrives, never when read. */
module SlidingWindow {

  const SLOTS: nat := 60

  /** The latest second, up to `cur`, whose slot is `j`. */
  function SecondAt(j: nat, cur: int): int {
    cur - (cur - j) % SLOTS
  }

  lemma SecondAtIsUnique(j: nat, cur: int, s: int)
    requires j < SLOTS
    ensures cur - SLOTS < SecondAt(j, cur) <= cur && SecondAt(j, cur) % SLOTS == j
    ensures cur - SLOTS < s <= cur && s % SLOTS == j ==> s == SecondAt(j, cur)
  {
  }

  lemma NextSecond(j: nat, cur: int)
    requires j < SLOTS
    ensures SecondAt(j, cur + 1) == if (cur + 1) % SLOTS == j then cur + 1 else SecondAt(j, cur)
  {
  }

  datatype Window = Window(slots: seq<nat>, cur: int)

  function Zeros(): (r: seq<nat>)
    ensures |r| == SLOTS
  {
    seq(SLOTS, _ => 0)
  }

  /** The slots once the seconds after `cur` up to `sec` have been cleared. */
  function Cleared(slots: seq<nat>, cur: int, sec: int): (r: seq<nat>)
    requires |slots| == SLOTS
    ensures |r| == SLOTS
  {
    if sec <= cur then slots
    else seq(SLOTS, j requires 0 <= j < SLOTS => if SecondAt(j, sec) > cur then 0 else slots[j])
  }

  /** One request in second `sec`. */
  function Arrived(w: Window, sec: int): (r: Window)
    requires |w.slots| == SLOTS
    ensures |r.slots| == SLOTS && r.cur == sec
  {
    var kept := Cleared(w.slots, w.cur, sec);
    Window(kept[sec % SLOTS := kept[sec % SLOTS] + 1], sec)
  }

  function Count(h: seq<int>, s: int): nat {
    if h == [] then 0 else Count(h[..|h| - 1], s) + if h[|h| - 1] == s then 1 else 0
  }

  /** The window after the requests of `h`, from a collector made in second `start`. */
  function After(start: int, h: seq<int>): (w: Window)
    ensures |w.slots| == SLOTS
  {
    if h == [] then Window(Zeros(), start) else Arrived(After(start, h[..|h| - 1]), h[|h| - 1])
  }

  predicate Forward(start: int, h: seq<int>) {
    h == [] ||
    var n := |h| - 1;
    Forward(start, h[..n]) && (if n == 0 then start else h[n - 1]) <= h[n]
  }

  ghost predicate Agrees(w: Window, h: seq<int>) {
    && |w.slots| == SLOTS
    && forall j | 0 <= j < SLOTS :: w.slots[j] == Count(h, SecondAt(j, w.cur))
  }

  lemma {:induction false} NoneLater(start: int, h: seq<int>, s: int)
    requires Forward(start, h) && s > After(start, h).cur
    ensures Count(h, s) == 0
  {
    if h == [] {
    } else {
      var n := |h| - 1;
      assert After(start, h[..n]).cur == if n == 0 then start else h[n - 1];
      NoneLater(start, h[..n], s);
    }
  }

  /** On a clock that never goes back, every slot holds the number of requests of
      its second, for each of the last sixty seconds up to the latest request. */
  lemma {:induction false} SlotsCountRequests(start: int, h: seq<int>)
    requires Forward(start, h)
    ensures Agrees(After(start, h), h)
  {
    if h == [] {
    } else {
      var n := |h| - 1;
      var w, sec := After(start, h[..n]), h[n];
      assert w.cur == if n == 0 then start else h[n - 1];
      SlotsCountRequests(start, h[..n]);
      var after := After(start, h);
      forall j | 0 <= j < SLOTS
        ensures after.slots[j] == Count(h, SecondAt(j, sec))
      {
        var s := SecondAt(j, sec);
        SecondAtIsUnique(j, sec, s);
        SecondAtIsUnique(sec % SLOTS, sec, sec);
        if s > w.cur {
          NoneLater(start, h[..n], s);
        } else {
          SecondAtIsUnique(j, w.cur, s);
        }
      }
    }
  }

  // ---------- Clock readings out of order ----------

  /** No count is misplaced when a request of second `sec` follows those of `h`: going
      forward, no second on the way has been counted already; going back, every slot
      holds what it would have held then. */
  ghost predicate Harmless(h: seq<int>, cur: int, sec: int) {
    if sec >= cur then forall t | cur < t <= sec && t > sec - SLOTS :: Count(h, t) == 0
    else forall j | 0 <= j < SLOTS :: Count(h, SecondAt(j, cur)) == Count(h, SecondAt(j, sec))
  }

  lemma CountMore(h: seq<int>, sec: int, s: int)
    ensures Count(h + [sec], s) == Count(h, s) + if s == sec then 1 else 0
  {
    assert (h + [sec])[..|h|] == h;
  }

  lemma ArrivedSlot(w: Window, h: seq<int>, sec: int, j: nat)
    requires Agrees(w, h) && j < SLOTS
    ensures Arrived(w, sec).slots[j] == Count(h + [sec], SecondAt(j, sec)) <==>
            if SecondAt(j, sec) > w.cur then Count(h, SecondAt(j, sec)) == 0
            else Count(h, SecondAt(j, w.cur)) == Count(h, SecondAt(j, sec))
  {
    hide Count, SecondAt;
    CountMore(h, sec, SecondAt(j, sec));
    SecondAtIsUnique(j, sec, sec);
    SecondAtIsUnique(j, sec, SecondAt(j, sec));
  }

  lemma ForwardSlot(j: nat, cur: int, sec: int)
    requires j < SLOTS && cur <= sec && SecondAt(j, sec) <= cur
    ensures SecondAt(j, cur) == SecondAt(j, sec)
  {
  }

  /** An arrival keeps an agreeing window in agreement exactly when it is harmless. */
  lemma ArrivalAgreesExactly(w: Window, h: seq<int>, sec: int)
    requires Agrees(w, h)
    ensures Agrees(Arrived(w, sec), h + [sec]) <==> Harmless(h, w.cur, sec)
  {
    hide Count, SecondAt, Arrived;
    forall j: nat | j < SLOTS
      ensures Arrived(w, sec).slots[j] == Count(h + [sec], SecondAt(j, sec)) <==>
              if SecondAt(j, sec) > w.cur then Count(h, SecondAt(j, sec)) == 0
              else Count(h, SecondAt(j, w.cur)) == Count(h, SecondAt(j, sec))
      ensures sec - SLOTS < SecondAt(j, sec) <= sec
      ensures w.cur <= sec && SecondAt(j, sec) <= w.cur ==> SecondAt(j, w.cur) == SecondAt(j, sec)
    {
      ArrivedSlot(w, h, sec, j);
      SecondAtIsUnique(j, sec, sec);
      if w.cur <= sec && SecondAt(j, sec) <= w.cur {
        ForwardSlot(j, w.cur, sec);
      }
    }
    if Agrees(Arrived(w, sec), h + [sec]) && sec >= w.cur {
      forall t | w.cur < t <= sec && t > sec - SLOTS
        ensures Count(h, t) == 0
      {
        SecondAtIsUnique(t % SLOTS, sec, t);
      }
    }
  }

  /** The window agrees with the history after every request. */
  ghost predicate AlwaysAgrees(start: int, h: seq<int>) {
    h == [] || (AlwaysAgrees(start, h[..|h| - 1]) && Agrees(After(start, h), h))
  }

  ghost predicate AllHarmless(start: int, h: seq<int>) {
    h == [] ||
    var n := |h| - 1;
    AllHarmless(start, h[..n]) && Harmless(h[..n], After(start, h[..n]).cur, h[n])
  }

  lemma NothingAgrees(start: int)
    ensures Agrees(After(start, []), [])
  {
  }

  /** In whatever order the clock readings come, the window agrees with its history
      all along exactly when every arrival is harmless. */
  lemma {:induction false} WindowAgreesExactly(start: int, h: seq<int>)
    ensures AlwaysAgrees(start, h) <==> AllHarmless(start, h)
  {
    hide Agrees, Arrived, Harmless;
    if h == [] {
    } else {
      var n := |h| - 1;
      var front := h[..n];
      WindowAgreesExactly(start, front);
      if AlwaysAgrees(start, front) {
        if front == [] {
          NothingAgrees(start);
        }
        assert Agrees(After(start, front), front);
        ArrivalAgreesExactly(After(start, front), front, h[n]);
        assert h == front + [h[n]];
      }
    }
  }

  /** A request whose clock reading is overtaken by a later one turns the window
      back, and the count of the later second is lost when it comes again. */
  lemma OvertakenReadingLosesCounts()
    ensures var h := [101, 100, 101];
            !Forward(100, h) && After(100, h).slots[101 % SLOTS] == 1 && Count(h, 101) == 2
  {
    var h := [101, 100, 101];
    assert h[..2] == [101, 100] && [101, 100][..1] == [101] && [101][..0] == [];
    assert After(100, [101]).cur == 101;
    assert After(100, [101, 100]).cur == 100;
    SecondAtIsUnique(41, 101, 101);
  }

  // ---------- Reading ----------

  /** Slot of second `t`. */
  function SlotOf(w: Window, t: int): nat
    requires |w.slots| == SLOTS
  {
    w.slots[t % SLOTS]
  }

  /** The sixty values a snapshot at `now` reports, oldest first. */
  function Series(w: Window, now: int): seq<int>
    requires |w.slots| == SLOTS
  {
    seq(SLOTS, i requires 0 <= i < SLOTS => SlotOf(w, now - (SLOTS - 1 - i)))
  }

  /** What a snapshot shows for second `t`: the requests of `t` itself if it is
      not after the latest request, else those of the same slot's last use. */
  lemma ShownFor(start: int, h: seq<int>, now: int, t: int)
    requires Forward(start, h) && now - SLOTS < t <= now
    ensures var w := After(start, h);
            && (w.cur <= now && t <= w.cur ==> SlotOf(w, t) == Count(h, t))
            && (w.cur < t <= w.cur + SLOTS ==> SlotOf(w, t) == Count(h, t - SLOTS))
            && SlotOf(w, t) == Count(h, SecondAt(t % SLOTS, w.cur))
  {
    hide After, Count, SecondAt, Forward;
    var w := After(start, h);
    SlotsCountRequests(start, h);
    SecondAtIsUnique(t % SLOTS, w.cur, t);
    SecondAtIsUnique(t % SLOTS, w.cur, t - SLOTS);
    assert (t - SLOTS) % SLOTS == t % SLOTS;
  }

  /** A snapshot at `now` is right for every second it shows. */
  ghost predicate Exact(w: Window, h: seq<int>, now: int)
    requires |w.slots| == SLOTS
  {
    forall t | now - SLOTS < t <= now :: SlotOf(w, t) == Count(h, t)
  }

  /** In the minute up to `cur`, no request is sixty seconds old or older by `now`. */
  ghost predicate NoneOld(h: seq<int>, cur: int, now: int) {
    forall s | cur - SLOTS < s <= cur && s <= now - SLOTS :: Count(h, s) == 0
  }

  lemma ExactIfNoneOld(start: int, h: seq<int>, now: int)
    requires Forward(start, h) && After(start, h).cur <= now && NoneOld(h, After(start, h).cur, now)
    ensures Exact(After(start, h), h, now)
  {
    hide After, Count, SecondAt, Forward, SlotOf;
    var w := After(start, h);
    forall t | now - SLOTS < t <= now
      ensures SlotOf(w, t) == Count(h, t)
    {
      ShownFor(start, h, now, t);
      if t > w.cur {
        NoneLater(start, h, t);
        ComesRound(w.cur, now, t);
      }
    }
  }

  lemma NoneOldIfExact(start: int, h: seq<int>, now: int)
    requires Forward(start, h) && After(start, h).cur <= now && Exact(After(start, h), h, now)
    ensures NoneOld(h, After(start, h).cur, now)
  {
    hide After, Count, SecondAt, Forward, SlotOf;
    var w := After(start, h);
    forall s | w.cur - SLOTS < s <= w.cur && s <= now - SLOTS
      ensures Count(h, s) == 0
    {
      var t := SecondAt(s % SLOTS, now);
      LeavesRoom(w.cur, now, s);
      ShownFor(start, h, now, t);
      NoneLater(start, h, t);
    }
  }

  /** A snapshot is exact exactly when no request of the minute up to the latest one
      is sixty seconds old or older by now; in the second of the latest request it
      always is. */
  lemma SnapshotExactly(start: int, h: seq<int>, now: int)
    requires Forward(start, h) && After(start, h).cur <= now
    ensures Exact(After(start, h), h, now) <==> NoneOld(h, After(start, h).cur, now)
    ensures After(start, h).cur == now ==>
              forall i | 0 <= i < SLOTS :: Series(After(start, h), now)[i] == Count(h, now - (SLOTS - 1 - i))
  {
    var w := After(start, h);
    if Exact(w, h, now) {
      NoneOldIfExact(start, h, now);
    }
    if NoneOld(h, w.cur, now) {
      ExactIfNoneOld(start, h, now);
    }
    forall i | 0 <= i < SLOTS
      ensures w.cur == now ==> Series(w, now)[i] == Count(h, now - (SLOTS - 1 - i))
    {
      ShownFor(start, h, now, now - (SLOTS - 1 - i));
    }
  }

  lemma ComesRound(cur: int, now: int, t: int)
    requires now - SLOTS < t <= now && t > cur
    ensures var s := SecondAt(t % SLOTS, cur); cur - SLOTS < s <= cur && s <= now - SLOTS
  {
    var s := SecondAt(t % SLOTS, cur);
    SecondAtIsUnique(t % SLOTS, cur, s);
  }

  lemma LeavesRoom(cur: int, now: int, s: int)
    requires cur - SLOTS < s <= cur <= now && s <= now - SLOTS
    ensures var t := SecondAt(s % SLOTS, now); now - SLOTS < t <= now && t > cur && SecondAt(t % SLOTS, cur) == s
  {
    var t := SecondAt(s % SLOTS, now);
    SecondAtIsUnique(s % SLOTS, now, t);
    SecondAtIsUnique(s % SLOTS, cur, s);
  }

  function SumBack(w: Window, now: int, n: nat): nat
    requires |w.slots| == SLOTS
  {
    if n == 0 then 0 else SumBack(w, now, n - 1) + SlotOf(w, now - (n - 1))
  }

  function CountBack(h: seq<int>, now: int, n: nat): nat {
    if n == 0 then 0 else CountBack(h, now, n - 1) + Count(h, now - (n - 1))
  }

  /** The five-second sum behind the reported rate, slot by slot. */
  lemma SumOfFive(w: Window, now: int)
    requires |w.slots| == SLOTS
    ensures SumBack(w, now, 5) ==
            w.slots[now % 60] + w.slots[(now - 1) % 60] + w.slots[(now - 2) % 60]
            + w.slots[(now - 3) % 60] + w.slots[(now - 4) % 60]
  {
    assert SumBack(w, now, 1) == SlotOf(w, now);
    assert SumBack(w, now, 2) == SumBack(w, now, 1) + SlotOf(w, now - 1);
    assert SumBack(w, now, 3) == SumBack(w, now, 2) + SlotOf(w, now - 2);
    assert SumBack(w, now, 4) == SumBack(w, now, 3) + SlotOf(w, now - 3);
    assert SumBack(w, now, 5) == SumBack(w, now, 4) + SlotOf(w, now - 4);
  }

  lemma SeriesSlots(w: Window, now: int)
    requires |w.slots| == SLOTS
    ensures |Series(w, now)| == 60 && forall i | 0 <= i < 60 :: Series(w, now)[i] == w.slots[(now - 59 + i) % 60]
  {
    forall i | 0 <= i < 60
      ensures Series(w, now)[i] == w.slots[(now - 59 + i) % 60]
    {
      var t := now - (SLOTS - 1 - i);
      assert t == now - 59 + i && t % SLOTS == t % 60;
      assert Series(w, now)[i] == SlotOf(w, t) == w.slots[t % SLOTS];
    }
  }

  /** Whenever it is read, entry `i` of the series is the number of requests in the one
      second of the minute up to the latest request that shares its slot: its own
      second, if that is not later. */
  lemma SeriesShows(start: int, h: seq<int>, now: int, i: nat, s: int)
    requires Forward(start, h) && i < 60
    requires After(start, h).cur - 60 < s <= After(start, h).cur && (s - (now - 59 + i)) % 60 == 0
    ensures |Series(After(start, h), now)| == 60 && Series(After(start, h), now)[i] == Count(h, s)
  {
    SlotsCountRequests(start, h);
    SeriesAt(After(start, h), h, now, i, s);
  }

  lemma SeriesAt(w: Window, h: seq<int>, now: int, i: nat, s: int)
    requires Agrees(w, h) && i < 60 && w.cur - 60 < s <= w.cur && (s - (now - 59 + i)) % 60 == 0
    ensures |Series(w, now)| == 60 && Series(w, now)[i] == Count(h, s)
  {
    hide Count, SecondAt;
    var t := now - (SLOTS - 1 - i);
    SameSlot(s, t);
    SecondAtIsUnique(s % SLOTS, w.cur, s);
    assert Series(w, now)[i] == SlotOf(w, t) == w.slots[s % SLOTS];
  }

  lemma SameSlot(s: int, t: int)
    requires (s - t) % 60 == 0
    ensures s % 60 == t % 60
  {
  }

  /** It counts the requests of its seconds when read in the second of the latest. */
  lemma {:induction false} RecentSum(start: int, h: seq<int>, n: nat)
    requires Forward(start, h) && n <= SLOTS
    ensures var w := After(start, h); SumBack(w, w.cur, n) == CountBack(h, w.cur, n)
  {
    if n == 0 {
    } else {
      var w := After(start, h);
      RecentSum(start, h, n - 1);
      ShownFor(start, h, w.cur, w.cur - (n - 1));
    }
  }

  /** One quiet minute is enough to show a request that is a minute old. */
  lemma StaleSlotShows()
    ensures var w := After(100, [100]);
            Forward(100, [100]) && SlotOf(w, 160) == 1 && Count([100], 160) == 0
  {
    assert [100][..0] == [];
    SlotsCountRequests(100, [100]);
  }
}
