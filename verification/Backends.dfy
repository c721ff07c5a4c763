/** A backend as the pool, the retry loop and the health checker share it. */
module Backends {
  import opened Text
  import Breaker
  import opened Paths

  const MAX_ERROR_TEXT := 200

  class Backend {
    const weight: int
    const backup: bool
    const url: Upstream

    var alive: bool
    var fails: nat
    var okStreak: nat
    var conns: int
    var curW: int
    var lastErr: string

    /** newBackend: weights below one count as one; a new backend is alive. */
    constructor (weight: int, backup: bool, url: Upstream)
      ensures this.weight == (if weight <= 0 then 1 else weight)
      ensures this.backup == backup && this.url == url
      ensures Health() == Breaker.FRESH && conns == 0 && curW == 0 && lastErr == ""
    {
      this.weight := if weight <= 0 then 1 else weight;
      this.backup, this.url := backup, url;
      alive, fails, okStreak, conns, curW, lastErr := true, 0, 0, 0, 0, "";
    }

    /** The built-in upstream answers without a network. */
    predicate Internal() {
      url.scheme == "internal"
    }

    function Health(): Breaker.State
      reads this`alive, this`fails, this`okStreak
    {
      Breaker.State(fails, okStreak, alive)
    }

    method MarkFail(err: Option<string>, threshold: int)
      modifies this`alive, this`fails, this`okStreak, this`lastErr
      ensures Health() == Breaker.Fail(old(Health()), threshold)
      ensures fails == old(fails) + 1 && okStreak == 0 && (alive <==> old(alive) && fails < threshold)
      ensures err.None? ==> lastErr == old(lastErr)
      ensures err.Some? ==>
                lastErr == if |err.value| > 200 then err.value[..200] else err.value
    {
      fails := fails + 1;
      okStreak := 0;
      if err.Some? {
        lastErr := err.value;
        if |lastErr| > MAX_ERROR_TEXT {
          lastErr := lastErr[..MAX_ERROR_TEXT];
        }
      }
      if fails >= Breaker.AtLeastOne(threshold) {
        alive := false;
      }
    }

    method MarkOK(passes: int)
      modifies this`alive, this`fails, this`okStreak, this`lastErr
      ensures Health() == Breaker.Good(old(Health()), passes)
      ensures okStreak == old(okStreak) + 1
      ensures if okStreak >= passes then fails == 0 && alive && lastErr == ""
              else fails == old(fails) && alive == old(alive) && lastErr == old(lastErr)
    {
      okStreak := okStreak + 1;
      if okStreak >= Breaker.AtLeastOne(passes) {
        fails := 0;
        lastErr := "";
        alive := true;
      }
    }

    method MarkSuccess()
      modifies this`alive, this`fails, this`lastErr
      ensures Health() == Breaker.Clear(old(Health()))
      ensures fails == 0 && alive && lastErr == ""
    {
      fails := 0;
      lastErr := "";
      alive := true;
    }
  }
}
