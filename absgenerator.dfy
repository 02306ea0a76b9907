/**
 * The clock source of the generators and the busy-wait for the next millisecond.
 * `System.currentTimeMillis()` is modelled by a Clock object holding the readings it
 * will return, in order; every read consumes the first one.
 */
module AbsGenerator {
  import opened Wrappers

  class Clock {
    var readings: seq<int>

    constructor (readings: seq<int>)
      ensures this.readings == readings
    {
      this.readings := readings;
    }

    /** `currentTmp()`: returns the next reading. */
    method CurrentTmp() returns (t: int)
      requires |readings| > 0
      modifies this
      ensures t == old(readings)[0] && readings == old(readings)[1..]
    {
      t := readings[0];
      readings := readings[1..];
    }
  }

  /** Position of the first reading strictly above the bound, if there is one. */
  function NextAbove(readings: seq<int>, bound: int): (k: Option<nat>)
    ensures k.Some? ==> k.value < |readings|
  {
    if readings == [] then None
    else if readings[0] > bound then Some(0)
    else match NextAbove(readings[1..], bound)
      case None => None
      case Some(k) => Some(k + 1)
  }

  /**
   * `tillNextMillis(lastTimestamp)`: reads the clock until a reading exceeds lastTimestamp
   * and returns that reading. It touches nothing but the clock; the model requires that such
   * a reading is among the remaining ones.
   */
  method TillNextMillis(clock: Clock, lastTimestamp: int) returns (timestamp: int)
    requires NextAbove(clock.readings, lastTimestamp).Some?
    modifies clock
    ensures var k := NextAbove(old(clock.readings), lastTimestamp).value;
            timestamp == old(clock.readings)[k] && clock.readings == old(clock.readings)[k + 1..]
    ensures timestamp > lastTimestamp
  {
    ghost var all := clock.readings;
    ghost var k := NextAbove(all, lastTimestamp).value;
    NextAboveFirst(all, lastTimestamp);
    timestamp := clock.CurrentTmp();
    ghost var i := 0;
    while timestamp <= lastTimestamp
      invariant 0 <= i <= k
      invariant timestamp == all[i] && clock.readings == all[i + 1..]
      decreases k - i
    {
      timestamp := clock.CurrentTmp();
      i := i + 1;
    }
  }

  /** NextAbove finds the first reading above the bound, and None means there is none. */
  lemma {:induction false} NextAboveFirst(readings: seq<int>, bound: int)
    ensures var k := NextAbove(readings, bound);
            (k.Some? ==> readings[k.value] > bound)
            && forall j :: 0 <= j < |readings| && (k.None? || j < k.value) ==> readings[j] <= bound
  {
    if readings != [] && readings[0] <= bound {
      NextAboveFirst(readings[1..], bound);
      var k := NextAbove(readings, bound);
      forall j | 0 <= j < |readings| && (k.None? || j < k.value)
        ensures readings[j] <= bound
      {
        if j > 0 {
          assert readings[j] == readings[1..][j - 1];
        }
      }
    }
  }

  /** When the first reading already exceeds the bound, the wait returns after a single read. */
  lemma NextAboveImmediate(readings: seq<int>, bound: int)
    requires |readings| > 0 && readings[0] > bound
    ensures NextAbove(readings, bound) == Some(0)
  {
  }
}
