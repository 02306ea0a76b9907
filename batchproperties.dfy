/**
 * What build's loop guarantees about the stamps it emits: the sequence numbers count
 * on modulo 4096, the working timestamp only moves on a wrap, and a wrap waits for a
 * reading past the bound its policy names.
 */
module BatchProperties {
  import opened Wrappers
  import opened IdLayout
  import opened AbsGenerator
  import opened Snowflake

  /** The working timestamp the i-th id of a batch starts from. */
  function Prev(time: int, stamps: seq<Stamp>, i: nat): int
    requires i <= |stamps|
  {
    if i == 0 then time else stamps[i - 1].time
  }

  lemma ModShift(a: int, i: int)
    ensures ((a + 1) % 4096 + i) % 4096 == (a + 1 + i) % 4096
  {
    var q := (a + 1) / 4096;
    assert a + 1 == q * 4096 + (a + 1) % 4096;
    assert (a + 1 + i) == q * 4096 + ((a + 1) % 4096 + i);
  }

  /**
   * The first turn of a batch: the stamp it makes, and the readings the rest of the
   * batch is built from.
   */
  lemma EmitUnfold(policy: WaitPolicy, stored: int, sequence: int, time: int, n: nat, readings: seq<int>)
      returns (t: int, rs: seq<int>)
    requires n > 0 && Emit(policy, stored, sequence, time, n, readings).Some?
    ensures var s := (sequence + 1) % (MAX_SEQUENCE + 1);
            var run := Emit(policy, stored, sequence, time, n, readings).value;
            var rest := Emit(policy, stored, s, t, n - 1, rs);
            rest.Some? && run.stamps == [Stamp(t, s)] + rest.value.stamps
            && run.sequence == rest.value.sequence && run.time == rest.value.time
            && (s != 0 ==> t == time && rs == readings && run.consumed == rest.value.consumed)
            && (s == 0 ==> t > WaitBound(policy, stored, time) && t in readings
                           && forall x :: x in rs ==> x in readings)
  {
    var s := (sequence + 1) % (MAX_SEQUENCE + 1);
    var next := NextAbove(readings, WaitBound(policy, stored, time));
    if s != 0 {
      t, rs := time, readings;
    } else {
      NextAboveFirst(readings, WaitBound(policy, stored, time));
      t, rs := readings[next.value], readings[next.value + 1..];
    }
  }

  /** The i-th id carries sequence number (sequence + i + 1) mod 4096. */
  lemma {:induction false} EmitSequences(policy: WaitPolicy, stored: int, sequence: int, time: int, n: nat, readings: seq<int>)
    requires Emit(policy, stored, sequence, time, n, readings).Some?
    ensures var run := Emit(policy, stored, sequence, time, n, readings).value;
            forall i :: 0 <= i < n ==> run.stamps[i].sequence == (sequence + i + 1) % (MAX_SEQUENCE + 1)
    decreases n
  {
    if n > 0 {
      var run := Emit(policy, stored, sequence, time, n, readings).value;
      var s := (sequence + 1) % (MAX_SEQUENCE + 1);
      var t, rs := EmitUnfold(policy, stored, sequence, time, n, readings);
      var rest := Emit(policy, stored, s, t, n - 1, rs).value;
      EmitSequences(policy, stored, s, t, n - 1, rs);
      forall i | 1 <= i < n
        ensures run.stamps[i].sequence == (sequence + i + 1) % (MAX_SEQUENCE + 1)
      {
        assert run.stamps[i] == rest.stamps[i - 1];
        ModShift(sequence, i);
      }
    }
  }

  /** Without a wrap an id keeps the working timestamp it starts from. */
  lemma {:induction false} EmitTimeKept(policy: WaitPolicy, stored: int, sequence: int, time: int, n: nat, readings: seq<int>)
    requires Emit(policy, stored, sequence, time, n, readings).Some?
    ensures var run := Emit(policy, stored, sequence, time, n, readings).value;
            forall i :: 0 <= i < n && run.stamps[i].sequence != 0 ==> run.stamps[i].time == Prev(time, run.stamps, i)
    decreases n
  {
    if n > 0 {
      var run := Emit(policy, stored, sequence, time, n, readings).value;
      var s := (sequence + 1) % (MAX_SEQUENCE + 1);
      var t, rs := EmitUnfold(policy, stored, sequence, time, n, readings);
      var rest := Emit(policy, stored, s, t, n - 1, rs).value;
      EmitTimeKept(policy, stored, s, t, n - 1, rs);
      forall i | 1 <= i < n
        ensures run.stamps[i] == rest.stamps[i - 1] && Prev(time, run.stamps, i) == Prev(t, rest.stamps, i - 1)
      {
      }
    }
  }

  /** A wrap moves the working timestamp to a reading past the policy's bound. */
  lemma {:induction false} EmitWaitPast(policy: WaitPolicy, stored: int, sequence: int, time: int, n: nat, readings: seq<int>)
    requires Emit(policy, stored, sequence, time, n, readings).Some?
    ensures var run := Emit(policy, stored, sequence, time, n, readings).value;
            forall i :: 0 <= i < n && run.stamps[i].sequence == 0 ==>
              run.stamps[i].time > WaitBound(policy, stored, Prev(time, run.stamps, i))
    decreases n
  {
    if n > 0 {
      var run := Emit(policy, stored, sequence, time, n, readings).value;
      var s := (sequence + 1) % (MAX_SEQUENCE + 1);
      var t, rs := EmitUnfold(policy, stored, sequence, time, n, readings);
      var rest := Emit(policy, stored, s, t, n - 1, rs).value;
      EmitWaitPast(policy, stored, s, t, n - 1, rs);
      forall i | 1 <= i < n
        ensures run.stamps[i] == rest.stamps[i - 1] && Prev(time, run.stamps, i) == Prev(t, rest.stamps, i - 1)
      {
      }
    }
  }

  /** A batch leaves the sequence number and the working timestamp of its last id. */
  lemma {:induction false} EmitFinal(policy: WaitPolicy, stored: int, sequence: int, time: int, n: nat, readings: seq<int>)
    requires Emit(policy, stored, sequence, time, n, readings).Some?
    ensures var run := Emit(policy, stored, sequence, time, n, readings).value;
            (n == 0 ==> run.sequence == sequence && run.time == time)
            && (n > 0 ==> run.sequence == run.stamps[n - 1].sequence && run.time == run.stamps[n - 1].time)
    decreases n
  {
    if n > 0 {
      var run := Emit(policy, stored, sequence, time, n, readings).value;
      var s := (sequence + 1) % (MAX_SEQUENCE + 1);
      var t, rs := EmitUnfold(policy, stored, sequence, time, n, readings);
      var rest := Emit(policy, stored, s, t, n - 1, rs).value;
      EmitFinal(policy, stored, s, t, n - 1, rs);
    }
  }

  /** Every working timestamp of a batch is the one it starts from or one of the readings. */
  lemma {:induction false} EmitTimesRead(policy: WaitPolicy, stored: int, sequence: int, time: int, n: nat, readings: seq<int>)
    requires Emit(policy, stored, sequence, time, n, readings).Some?
    ensures var run := Emit(policy, stored, sequence, time, n, readings).value;
            forall i :: 0 <= i < n ==> run.stamps[i].time == time || run.stamps[i].time in readings
    decreases n
  {
    if n > 0 {
      var run := Emit(policy, stored, sequence, time, n, readings).value;
      var s := (sequence + 1) % (MAX_SEQUENCE + 1);
      var t, rs := EmitUnfold(policy, stored, sequence, time, n, readings);
      var rest := Emit(policy, stored, s, t, n - 1, rs).value;
      EmitTimesRead(policy, stored, s, t, n - 1, rs);
      forall i | 1 <= i < n
        ensures run.stamps[i].time == time || run.stamps[i].time in readings
      {
        assert run.stamps[i] == rest.stamps[i - 1];
      }
    }
  }

  /**
   * When every reading is past the stored bound, the code as written never runs out of
   * readings while it has at least one per id left: each wrap takes the next reading.
   */
  lemma {:induction false} StoredWaitsDefined(stored: int, sequence: int, time: int, n: nat, readings: seq<int>)
    requires n <= |readings| && forall j :: 0 <= j < |readings| ==> readings[j] > stored
    ensures Emit(PastStored, stored, sequence, time, n, readings).Some?
    decreases n
  {
    if n > 0 {
      var s := (sequence + 1) % (MAX_SEQUENCE + 1);
      if s != 0 {
        StoredWaitsDefined(stored, s, time, n - 1, readings);
      } else {
        NextAboveImmediate(readings, stored);
        StoredWaitsDefined(stored, s, readings[0], n - 1, readings[1..]);
      }
    }
  }

  /** A batch that stays below the sequence limit takes no reading and counts up at one timestamp. */
  lemma {:induction false} EmitNoWrap(policy: WaitPolicy, stored: int, sequence: int, time: int, n: nat, readings: seq<int>)
    requires 0 <= sequence && sequence + n <= MAX_SEQUENCE
    ensures Emit(policy, stored, sequence, time, n, readings).Some?
    ensures var run := Emit(policy, stored, sequence, time, n, readings).value;
            run.consumed == 0 && run.time == time && run.sequence == sequence + n
            && forall i :: 0 <= i < n ==> run.stamps[i] == Stamp(time, sequence + i + 1)
    decreases n
  {
    if n > 0 {
      EmitNoWrap(policy, stored, sequence + 1, time, n - 1, readings);
      assert (sequence + 1) % (MAX_SEQUENCE + 1) == sequence + 1;
      var run := Emit(policy, stored, sequence, time, n, readings).value;
      var t, rs := EmitUnfold(policy, stored, sequence, time, n, readings);
      var rest := Emit(policy, stored, sequence + 1, time, n - 1, readings).value;
      forall i | 1 <= i < n
        ensures run.stamps[i] == Stamp(time, sequence + i + 1)
      {
        assert run.stamps[i] == rest.stamps[i - 1];
      }
    }
  }

  /** Without a wrap the policy does not matter: a batch that stays below 4096 is the same under both waits. */
  lemma NoWrapPolicyFree(stored: int, sequence: int, time: int, n: nat, readings: seq<int>)
    requires 0 <= sequence && sequence + n <= MAX_SEQUENCE
    ensures Emit(PastStored, stored, sequence, time, n, readings) == Emit(PastWorking, stored, sequence, time, n, readings)
  {
    EmitNoWrap(PastStored, stored, sequence, time, n, readings);
    EmitNoWrap(PastWorking, stored, sequence, time, n, readings);
    var a := Emit(PastStored, stored, sequence, time, n, readings).value;
    var b := Emit(PastWorking, stored, sequence, time, n, readings).value;
    assert a.stamps == b.stamps;
  }

  /** A stamp, and the readings it took, in front of the rest of a batch. */
  function Prepend(stamp: Stamp, taken: nat, rest: Option<Run>): Option<Run> {
    match rest
    case None => None
    case Some(run) => Some(Run([stamp] + run.stamps, run.sequence, run.time, taken + run.consumed))
  }

  /** A turn without a wrap stamps the working timestamp and takes no reading. */
  lemma EmitCountStep(policy: WaitPolicy, stored: int, sequence: int, time: int, n: nat, readings: seq<int>)
    requires n > 0 && (sequence + 1) % (MAX_SEQUENCE + 1) != 0
    ensures var s := (sequence + 1) % (MAX_SEQUENCE + 1);
            Emit(policy, stored, sequence, time, n, readings)
            == Prepend(Stamp(time, s), 0, Emit(policy, stored, s, time, n - 1, readings))
  {
  }

  /** A turn with a wrap stamps the first reading past the bound and takes the readings up to it. */
  lemma EmitWrapStep(policy: WaitPolicy, stored: int, sequence: int, time: int, n: nat, readings: seq<int>, k: nat)
    requires n > 0 && (sequence + 1) % (MAX_SEQUENCE + 1) == 0
    requires NextAbove(readings, WaitBound(policy, stored, time)) == Some(k)
    ensures Emit(policy, stored, sequence, time, n, readings)
            == Prepend(Stamp(readings[k], 0), k + 1, Emit(policy, stored, 0, readings[k], n - 1, readings[k + 1..]))
  {
  }

  /** A wrap with no reading past the bound leaves the batch undefined: the readings ran out. */
  lemma EmitWrapNone(policy: WaitPolicy, stored: int, sequence: int, time: int, n: nat, readings: seq<int>)
    requires n > 0 && (sequence + 1) % (MAX_SEQUENCE + 1) == 0
    requires NextAbove(readings, WaitBound(policy, stored, time)).None?
    ensures Emit(policy, stored, sequence, time, n, readings).None?
  {
  }

  /** A wrap in the stored millisecond: both waits look for the same reading, and the rest does not wrap. */
  lemma StoredWrapMatches(stored: int, n: nat, readings: seq<int>)
    requires 0 < n <= MAX_SEQUENCE + 1
    ensures Emit(PastStored, stored, MAX_SEQUENCE, stored, n, readings) == Emit(PastWorking, stored, MAX_SEQUENCE, stored, n, readings)
  {
    var next := NextAbove(readings, stored);
    assert WaitBound(PastStored, stored, stored) == stored && WaitBound(PastWorking, stored, stored) == stored;
    if next.Some? {
      var k := next.value;
      EmitWrapStep(PastStored, stored, MAX_SEQUENCE, stored, n, readings, k);
      EmitWrapStep(PastWorking, stored, MAX_SEQUENCE, stored, n, readings, k);
      NoWrapPolicyFree(stored, 0, readings[k], n - 1, readings[k + 1..]);
    } else {
      EmitWrapNone(PastStored, stored, MAX_SEQUENCE, stored, n, readings);
      EmitWrapNone(PastWorking, stored, MAX_SEQUENCE, stored, n, readings);
    }
  }

  /**
   * The code as written waits like the corrected code whenever the two bounds agree at
   * every wrap: a batch that never wraps, or one that starts in the stored millisecond
   * and is short enough to wrap at most once.
   */
  lemma {:induction false} StoredMatchesWorking(stored: int, sequence: int, time: int, n: nat, readings: seq<int>)
    requires 0 <= sequence <= MAX_SEQUENCE
    requires sequence + n <= MAX_SEQUENCE || (time == stored && n <= MAX_SEQUENCE + 1)
    ensures Emit(PastStored, stored, sequence, time, n, readings) == Emit(PastWorking, stored, sequence, time, n, readings)
    decreases n
  {
    if sequence + n <= MAX_SEQUENCE {
      NoWrapPolicyFree(stored, sequence, time, n, readings);
    } else if sequence == MAX_SEQUENCE {
      StoredWrapMatches(stored, n, readings);
    } else {
      assert (sequence + 1) % (MAX_SEQUENCE + 1) == sequence + 1;
      EmitCountStep(PastStored, stored, sequence, time, n, readings);
      EmitCountStep(PastWorking, stored, sequence, time, n, readings);
      StoredMatchesWorking(stored, sequence + 1, time, n - 1, readings);
    }
  }

  /** Lexicographic order on (timestamp, sequence), the order of one worker's ids. */
  predicate Before(a: Stamp, b: Stamp) {
    a.time < b.time || (a.time == b.time && a.sequence < b.sequence)
  }

  /**
   * With the corrected wait every id comes strictly after the one before it, and the
   * first strictly after the state the batch starts from.
   */
  lemma {:induction false} WorkingStampsAscend(stored: int, sequence: int, time: int, n: nat, readings: seq<int>)
    requires 0 <= sequence <= MAX_SEQUENCE
    requires Emit(PastWorking, stored, sequence, time, n, readings).Some?
    ensures var st := Emit(PastWorking, stored, sequence, time, n, readings).value.stamps;
            (n > 0 ==> Before(Stamp(time, sequence), st[0]))
            && forall i :: 0 <= i < n - 1 ==> Before(st[i], st[i + 1])
    decreases n
  {
    if n > 0 {
      var run := Emit(PastWorking, stored, sequence, time, n, readings).value;
      var s := (sequence + 1) % (MAX_SEQUENCE + 1);
      var t, rs := EmitUnfold(PastWorking, stored, sequence, time, n, readings);
      var rest := Emit(PastWorking, stored, s, t, n - 1, rs).value;
      if s != 0 {
        assert s == sequence + 1;
      }
      WorkingStampsAscend(stored, s, t, n - 1, rs);
      forall i | 0 <= i < n - 1
        ensures Before(run.stamps[i], run.stamps[i + 1])
      {
        assert run.stamps[i + 1] == rest.stamps[i];
        if i > 0 {
          assert run.stamps[i] == rest.stamps[i - 1];
        }
      }
    }
  }

  lemma BeforeTransitive(a: Stamp, b: Stamp, c: Stamp)
    requires Before(a, b) && Before(b, c)
    ensures Before(a, c)
  {
  }

  /** Adjacent order gives order between any two stamps. */
  lemma {:induction false} AscendingChain(st: seq<Stamp>)
    requires forall i :: 0 <= i < |st| - 1 ==> Before(st[i], st[i + 1])
    ensures forall i, j :: 0 <= i < j < |st| ==> Before(st[i], st[j])
  {
    if |st| > 1 {
      var init := st[..|st| - 1];
      assert forall k :: 0 <= k < |init| ==> init[k] == st[k];
      AscendingChain(init);
      forall i, j | 0 <= i < j < |st|
        ensures Before(st[i], st[j])
      {
        if j == |st| - 1 && i < j - 1 {
          assert Before(init[i], init[j - 1]);
          BeforeTransitive(st[i], st[j - 1], st[j]);
        } else if j < |st| - 1 {
          assert Before(init[i], init[j]);
        }
      }
    }
  }

  /** One worker's ids are ordered as their stamps are. */
  lemma IdsAscend(start: int, worker: int, st: seq<Stamp>)
    requires 0 <= worker <= MAX_WORKER_ID
    requires forall i :: 0 <= i < |st| ==> 0 <= st[i].sequence <= MAX_SEQUENCE
    requires forall i, j :: 0 <= i < j < |st| ==> Before(st[i], st[j])
    ensures var ids := Ids(start, worker, st);
            forall i, j :: 0 <= i < j < |ids| ==> ids[i] < ids[j]
  {
    forall i, j | 0 <= i < j < |st|
      ensures IdOf(start, worker, st[i]) < IdOf(start, worker, st[j])
    {
      PackOrder(st[i].time - start, st[i].sequence, st[j].time - start, st[j].sequence, worker);
    }
  }
}
