/** The statistics collector: the imperative form of the window, the ring log and
    the per-route counters. */
module Collectors {
  import Window = SlidingWindow
  import Ring = RingLog
  import opened RouteStats

  const DEFAULT_CAPACITY := 500

  /** Go's `%`: the remainder takes the sign of the dividend. */
  function Rem(a: int, n: nat): int
    requires n > 0
  {
    if a >= 0 then a % n else -((-a) % n)
  }

  lemma RemFixed(a: int)
    ensures var r := Rem(a, Window.SLOTS); (if r < 0 then r + Window.SLOTS else r) == a % Window.SLOTS
  {
  }

  class Collector {
    const buckets: array<nat>
    const logCap: nat
    var curSec: int
    var active: int
    var total: nat
    var bytes: nat
    var routes: map<string, RouteStat>
    var logs: seq<Entry>
    var logPos: nat

    ghost predicate Valid()
      reads this
    {
      buckets.Length == Window.SLOTS && RingNow().Valid()
    }

    function RingNow(): Ring.Ring<Entry>
      reads this`logs, this`logPos
    {
      Ring.Ring(logs, logPos, logCap)
    }

    ghost function WindowNow(): (w: Window.Window)
      reads this`curSec, buckets
      ensures |w.slots| == buckets.Length
    {
      Window.Window(buckets[..], curSec)
    }

    constructor (capacity: int, now: int)
      ensures Valid() && fresh(buckets)
      ensures RingNow() == Ring.After(if capacity <= 0 then 500 else capacity, [])
      ensures WindowNow() == Window.After(now, [])
      ensures routes == RouteStats.After([]) && active == 0 && total == 0 && bytes == 0
    {
      buckets := new nat[Window.SLOTS](_ => 0);
      logCap := if capacity <= 0 then DEFAULT_CAPACITY else capacity;
      curSec, active, total, bytes, routes, logs, logPos := now, 0, 0, 0, map[], [], 0;
      new;
      assert buckets[..] == Window.Zeros();
    }

    /** Clears the slots of the seconds after `curSec` up to `sec`. */
    method ClearPassed(sec: int)
      requires Valid() && curSec < sec < curSec + Window.SLOTS
      modifies this`curSec, buckets
      ensures curSec == sec && buckets[..] == Window.Cleared(old(buckets[..]), old(curSec), sec)
    {
      hide Window.SecondAt;
      ghost var slots, cur := buckets[..], curSec;
      forall j | 0 <= j < Window.SLOTS
        ensures Window.SecondAt(j, cur) <= cur
      {
        Window.SecondAtIsUnique(j, cur, cur);
      }
      var gap := sec - curSec;
      for i := 0 to gap
        invariant curSec == cur + i
        invariant forall j | 0 <= j < Window.SLOTS ::
                    buckets[j] == if Window.SecondAt(j, curSec) > cur then 0 else slots[j]
      {
        forall j | 0 <= j < Window.SLOTS
          ensures Window.SecondAt(j, curSec + 1) ==
                  if (curSec + 1) % 60 == j then curSec + 1 else Window.SecondAt(j, curSec)
        {
          Window.NextSecond(j, curSec);
        }
        curSec := curSec + 1;
        buckets[curSec % 60] := 0;
      }
    }

    /** Clears every slot, a minute or more having passed. */
    method ClearAll(sec: int)
      requires Valid() && sec >= curSec + Window.SLOTS
      modifies buckets
      ensures buckets[..] == Window.Cleared(old(buckets[..]), curSec, sec)
    {
      hide Window.SecondAt;
      for i := 0 to 60
        invariant forall j | 0 <= j < i :: buckets[j] == 0
      {
        buckets[i] := 0;
      }
      forall j | 0 <= j < Window.SLOTS
        ensures Window.SecondAt(j, sec) > curSec
      {
        Window.SecondAtIsUnique(j, sec, sec);
      }
    }

    method Begin(sec: int)
      requires Valid()
      modifies this`active, this`total, this`curSec, buckets
      ensures Valid() && active == old(active) + 1 && total == old(total) + 1
      ensures WindowNow() == Window.Arrived(old(WindowNow()), sec)
    {
      active := active + 1;
      total := total + 1;
      ghost var slots, cur := buckets[..], curSec;
      if sec != curSec {
        var gap := sec - curSec;
        if gap >= 60 {
          ClearAll(sec);
        } else if gap > 0 {
          ClearPassed(sec);
        }
        curSec := sec;
      }
      assert buckets[..] == Window.Cleared(slots, cur, sec);
      buckets[sec % 60] := buckets[sec % 60] + 1;
    }

    /** The counters of one route after one more entry. */
    method Update(stat: RouteStat, l: Entry) returns (rs: RouteStat)
      ensures rs == Noted(stat, Ended(l, active))
    {
      rs := stat.(requests := stat.requests + 1);
      if l.status >= 500 {
        rs := rs.(status5xx := rs.status5xx + 1);
      } else if l.status >= 400 {
        rs := rs.(status4xx := rs.status4xx + 1);
      } else if l.status >= 300 {
        rs := rs.(status3xx := rs.status3xx + 1);
      } else {
        rs := rs.(status2xx := rs.status2xx + 1);
      }
      rs := rs.(bytes := rs.bytes + l.bytes, totalDur := rs.totalDur + l.duration);
      if l.duration > rs.maxDur {
        rs := rs.(maxDur := l.duration);
      }
      if l.error != "" {
        rs := rs.(lastError := l.error, lastErrAt := l.clock);
      }
      rs := rs.(active := active);
    }

    method Keep(l: Entry)
      requires Valid()
      modifies this`logs, this`logPos
      ensures Valid() && RingNow() == Ring.Push(old(RingNow()), l)
    {
      if |logs| < logCap {
        logs := logs + [l];
      } else {
        Ring.NextSlot(logPos, logCap);
        logs := logs[logPos := l];
        logPos := (logPos + 1) % logCap;
      }
    }

    method End(l: Entry)
      requires Valid()
      modifies this`active, this`bytes, this`routes, this`logs, this`logPos
      ensures Valid() && active == old(active) - 1 && bytes == old(bytes) + l.bytes
      ensures routes == Note(old(routes), Ended(l, active))
      ensures RingNow() == Ring.Push(old(RingNow()), l)
    {
      active := active - 1;
      bytes := bytes + l.bytes;
      var rs := Update(if l.route in routes then routes[l.route] else ZERO, l);
      routes := routes[l.route := rs];
      Keep(l);
    }

    method Clear()
      requires Valid()
      modifies this`logs, this`logPos
      ensures Valid() && RingNow() == Ring.Ring([], 0, logCap)
    {
      logs := [];
      logPos := 0;
    }

    method Logs(limit: int) returns (out: seq<Entry>)
      requires Valid()
      ensures var kept := Ring.Retained(RingNow());
              && out == Ring.Listing(RingNow(), limit)
              && (limit <= 0 || limit >= |kept| ==> |out| == |kept|) && (0 < limit < |kept| ==> |out| == limit)
              && forall i | 0 <= i < |out| :: out[i] == kept[|kept| - 1 - i]
    {
      var n := |logs|;
      var m := limit;
      if m <= 0 || m > n {
        m := n;
      }
      hide Ring.Retained;
      out := [];
      ghost var kept := Ring.Retained(RingNow());
      Ring.RetainedSize(RingNow());
      Ring.ListingAt(RingNow(), limit);
      for i := 0 to m
        invariant |out| == i && forall k | 0 <= k < i :: out[k] == kept[n - 1 - k]
      {
        Ring.NewestAt(RingNow(), i);
        var idx := (logPos + n - 1 - i + n) % n;
        out := out + [logs[idx]];
      }
    }

    /** One value per second of the last minute. */
    method SeriesNow(now: int) returns (series: seq<int>)
      requires Valid()
      ensures series == Window.Series(WindowNow(), now)
    {
      series := [];
      for i := 0 to 60
        invariant |series| == i
        invariant forall k | 0 <= k < i :: series[k] == Window.SlotOf(WindowNow(), now - (59 - k))
      {
        var idx := Rem(now - (59 - i), 60);
        RemFixed(now - (59 - i));
        if idx < 0 {
          idx := idx + 60;
        }
        series := series + [buckets[idx]];
      }
    }

    /** The requests of the last five seconds. */
    method SumNow(now: int) returns (sum: nat)
      requires Valid()
      ensures sum == Window.SumBack(WindowNow(), now, 5)
    {
      sum := 0;
      for i := 0 to 5
        invariant sum == Window.SumBack(WindowNow(), now, i)
      {
        var idx := Rem(now - i, 60);
        RemFixed(now - i);
        if idx < 0 {
          idx := idx + 60;
        }
        sum := sum + buckets[idx];
      }
    }

    /** The window part of a snapshot. */
    method Snapshot(now: int) returns (series: seq<int>, sum: nat)
      requires Valid()
      ensures series == Window.Series(WindowNow(), now)
      ensures |series| == 60 && forall i | 0 <= i < 60 :: series[i] == buckets[(now - 59 + i) % 60]
      ensures sum == Window.SumBack(WindowNow(), now, 5)
      ensures sum == buckets[now % 60] + buckets[(now - 1) % 60] + buckets[(now - 2) % 60]
                     + buckets[(now - 3) % 60] + buckets[(now - 4) % 60]
    {
      hide Window.Series, Window.SumBack;
      series := SeriesNow(now);
      Window.SeriesSlots(WindowNow(), now);
      sum := SumNow(now);
      Window.SumOfFive(WindowNow(), now);
    }
  }
}
