/**
 * What one call of `id(size)` guarantees: the rollback branches, batch size, the field
 * bounds it keeps, how lastTimestamp moves, and, under the corrected wait, strictly
 * increasing ids within and across calls. The last lemma shows the code as written
 * repeating an id.
 */
module GenerateProperties {
  import opened Wrappers
  import opened IdLayout
  import opened AbsGenerator
  import opened Snowflake
  import opened BatchProperties
  import Results

  /**
   * A call that reaches build: the working timestamp and sequence number build starts
   * from, and the readings the rollback check took before it.
   */
  lemma GenerateBuilds(policy: WaitPolicy, g: Gen, size: int, readings: seq<int>)
    returns (time: int, sequence: int, taken: nat)
    requires Generate(policy, g, size, readings).Some?
    requires Generate(policy, g, size, readings).value.result.status == Results.Success
    ensures 0 < taken <= |readings| && time == readings[taken - 1]
    ensures Generate(policy, g, size, readings)
            == AfterReads(Batch(policy, g.start, g.worker, g.last, sequence, time, size, readings[taken..]), taken)
    ensures time >= g.last && (time == g.last ==> sequence == g.sequence)
    ensures sequence == g.sequence || sequence == 0
  {
    if readings[0] < g.last {
      assert g.last - readings[0] <= MAX_MOVED_BACK_OFFSET && |readings| >= 2 && readings[1] >= g.last;
      time, sequence, taken := readings[1], g.sequence, 2;
    } else {
      time, sequence, taken := readings[0], if readings[0] > g.last then 0 else g.sequence, 1;
    }
  }

  /** A rollback of more than 3 ms fails at once, reports (now, lastTimestamp) and changes nothing. */
  lemma LargeRollback(policy: WaitPolicy, g: Gen, size: int, readings: seq<int>)
    requires |readings| > 0 && g.last - readings[0] > MAX_MOVED_BACK_OFFSET
    ensures var st := Generate(policy, g, size, readings);
            st.Some? && st.value.result.status == Results.Exception && st.value.result.id == None
            && st.value.result.message.Some?
            && Results.ParseClockBackMessage(st.value.result.message.value) == Some((readings[0], g.last))
            && st.value.sequence == g.sequence && st.value.last == g.last && st.value.consumed == 1
  {
    Results.ClockBackMessageRoundTrip(readings[0], g.last);
  }

  /**
   * A rollback of at most 3 ms waits once and reads the clock again; still behind, it
   * fails, reports the second reading and changes nothing.
   */
  lemma SmallRollbackStillBehind(policy: WaitPolicy, g: Gen, size: int, readings: seq<int>)
    requires |readings| > 1 && 0 < g.last - readings[0] <= MAX_MOVED_BACK_OFFSET && readings[1] < g.last
    ensures var st := Generate(policy, g, size, readings);
            st.Some? && st.value.result.status == Results.Exception && st.value.result.id == None
            && st.value.result.message.Some?
            && Results.ParseClockBackMessage(st.value.result.message.value) == Some((readings[1], g.last))
            && st.value.sequence == g.sequence && st.value.last == g.last && st.value.consumed == 2
  {
    Results.ClockBackMessageRoundTrip(readings[1], g.last);
  }

  /**
   * A rollback of at most 3 ms that the second reading has caught up with builds the
   * batch from that reading without resetting the sequence: the first id continues it.
   */
  lemma SmallRollbackRecovers(policy: WaitPolicy, g: Gen, size: int, readings: seq<int>)
    requires ValidGen(g)
    requires |readings| > 1 && 0 < g.last - readings[0] <= MAX_MOVED_BACK_OFFSET && readings[1] >= g.last
    requires Generate(policy, g, size, readings).Some?
    ensures var r := Generate(policy, g, size, readings).value.result;
            r.status == Results.Success && r.id.Some? && |r.id.value| > 0
            && SequenceOf(r.id.value[0]) == (g.sequence + 1) % (MAX_SEQUENCE + 1)
            && WorkerOf(r.id.value[0]) == g.worker
            && ((g.sequence + 1) % (MAX_SEQUENCE + 1) != 0 ==> DeltaOf(r.id.value[0]) == readings[1] - g.start)
  {
    var n := Count(size);
    var run := Emit(policy, g.last, g.sequence, readings[1], n, readings[2..]).value;
    EmitSequences(policy, g.last, g.sequence, readings[1], n, readings[2..]);
    EmitTimeKept(policy, g.last, g.sequence, readings[1], n, readings[2..]);
    PackRoundTrip(run.stamps[0].time - g.start, g.worker, run.stamps[0].sequence);
  }

  /**
   * A reading past lastTimestamp resets the sequence: the first id of the batch carries
   * that reading and sequence number 1.
   */
  lemma NewMillisecond(policy: WaitPolicy, g: Gen, size: int, readings: seq<int>)
    requires ValidGen(g) && |readings| > 0 && readings[0] > g.last
    requires Generate(policy, g, size, readings).Some?
    ensures var r := Generate(policy, g, size, readings).value.result;
            r.status == Results.Success && r.id.Some? && |r.id.value| > 0
            && DeltaOf(r.id.value[0]) == readings[0] - g.start && WorkerOf(r.id.value[0]) == g.worker
            && SequenceOf(r.id.value[0]) == 1
  {
    var n := Count(size);
    var run := Emit(policy, g.last, 0, readings[0], n, readings[1..]).value;
    EmitSequences(policy, g.last, 0, readings[0], n, readings[1..]);
    EmitTimeKept(policy, g.last, 0, readings[0], n, readings[1..]);
    PackRoundTrip(run.stamps[0].time - g.start, g.worker, run.stamps[0].sequence);
  }

  /**
   * The common case, exactly: in a new millisecond a batch of at most 4095 ids takes one
   * reading and returns sequence numbers 1, 2, ... at that reading.
   */
  lemma NewMillisecondBatch(policy: WaitPolicy, g: Gen, size: int, readings: seq<int>)
    requires |readings| > 0 && readings[0] > g.last && Count(size) <= MAX_SEQUENCE
    ensures var st := Generate(policy, g, size, readings);
            st.Some? && st.value.result.status == Results.Success && st.value.result.id.Some?
            && |st.value.result.id.value| == Count(size)
            && (forall i :: 0 <= i < Count(size) ==> st.value.result.id.value[i] == Pack(readings[0] - g.start, g.worker, i + 1))
            && st.value.last == readings[0] && st.value.sequence == Count(size) && st.value.consumed == 1
  {
    EmitNoWrap(policy, g.last, 0, readings[0], Count(size), readings[1..]);
  }

  /** The working timestamp a batch ends on is at least the stored one. */
  lemma {:induction false} EmitNotBeforeStored(policy: WaitPolicy, stored: int, sequence: int, time: int, n: nat, readings: seq<int>)
    requires time >= stored && Emit(policy, stored, sequence, time, n, readings).Some?
    ensures var run := Emit(policy, stored, sequence, time, n, readings).value;
            run.time >= stored
    decreases n
  {
    if n > 0 {
      var s := (sequence + 1) % (MAX_SEQUENCE + 1);
      var next := NextAbove(readings, WaitBound(policy, stored, time));
      var t, rs := if s != 0 then time else readings[next.value],
                   if s != 0 then readings else readings[next.value + 1..];
      if s == 0 {
        NextAboveFirst(readings, WaitBound(policy, stored, time));
      }
      EmitNotBeforeStored(policy, stored, s, t, n - 1, rs);
    }
  }

  /** A failed call changes neither the sequence nor lastTimestamp and returns no ids. */
  lemma GenerateFailure(policy: WaitPolicy, g: Gen, size: int, readings: seq<int>)
    requires Generate(policy, g, size, readings).Some?
    ensures var st := Generate(policy, g, size, readings).value;
            |readings| > 0
            && (st.result.status == Results.Exception
                <==> readings[0] < g.last
                     && (g.last - readings[0] > MAX_MOVED_BACK_OFFSET || (|readings| > 1 && readings[1] < g.last)))
            && (st.result.status == Results.Exception ==>
                  st.sequence == g.sequence && st.last == g.last && st.result.id == None)
  {
    var st := Generate(policy, g, size, readings).value;
    if st.result.status == Results.Success {
      var time, sequence, taken := GenerateBuilds(policy, g, size, readings);
    }
  }

  /**
   * A successful call returns Count(size) ids of this worker; the sequence stays in range,
   * lastTimestamp does not go back, and the new (lastTimestamp, sequence) is the stamp of
   * the last id returned.
   */
  lemma GenerateSuccess(policy: WaitPolicy, g: Gen, size: int, readings: seq<int>)
    requires ValidGen(g)
    requires Generate(policy, g, size, readings).Some?
    requires Generate(policy, g, size, readings).value.result.status == Results.Success
    ensures var st := Generate(policy, g, size, readings).value;
            st.result.id.Some? && |st.result.id.value| == Count(size)
            && 0 <= st.sequence <= MAX_SEQUENCE && st.last >= g.last
            && st.result.id.value[Count(size) - 1] == IdOf(g.start, g.worker, Stamp(st.last, st.sequence))
            && forall i :: 0 <= i < Count(size) ==> WorkerOf(st.result.id.value[i]) == g.worker
  {
    var time, sequence, taken := GenerateBuilds(policy, g, size, readings);
    BatchSuccess(policy, g, sequence, time, size, readings[taken..]);
  }

  /** The batch behind a successful call, from the timestamp and sequence the rollback policy hands it. */
  lemma BatchSuccess(policy: WaitPolicy, g: Gen, sequence: int, time: int, size: int, rs: seq<int>)
    requires ValidGen(g) && time >= g.last
    requires Batch(policy, g.start, g.worker, g.last, sequence, time, size, rs).Some?
    ensures var st := Batch(policy, g.start, g.worker, g.last, sequence, time, size, rs).value;
            st.result.id.Some? && |st.result.id.value| == Count(size)
            && 0 <= st.sequence <= MAX_SEQUENCE && st.last >= g.last
            && st.result.id.value[Count(size) - 1] == IdOf(g.start, g.worker, Stamp(st.last, st.sequence))
            && forall i :: 0 <= i < Count(size) ==> WorkerOf(st.result.id.value[i]) == g.worker
  {
    var n := Count(size);
    var run := Emit(policy, g.last, sequence, time, n, rs).value;
    EmitSequences(policy, g.last, sequence, time, n, rs);
    EmitFinal(policy, g.last, sequence, time, n, rs);
    EmitNotBeforeStored(policy, g.last, sequence, time, n, rs);
    forall i | 0 <= i < n
      ensures WorkerOf(IdOf(g.start, g.worker, run.stamps[i])) == g.worker
    {
      PackRoundTrip(run.stamps[i].time - g.start, g.worker, run.stamps[i].sequence);
    }
  }

  /**
   * With the corrected wait the ids of one call strictly increase, and every one of them
   * is greater than the id the state it starts from stands for.
   */
  lemma WorkingIdsAscend(g: Gen, size: int, readings: seq<int>)
    requires ValidGen(g)
    requires Generate(PastWorking, g, size, readings).Some?
    requires Generate(PastWorking, g, size, readings).value.result.status == Results.Success
    ensures var ids := Generate(PastWorking, g, size, readings).value.result.id.value;
            (forall i, j :: 0 <= i < j < |ids| ==> ids[i] < ids[j])
            && forall i :: 0 <= i < |ids| ==> IdOf(g.start, g.worker, Stamp(g.last, g.sequence)) < ids[i]
  {
    var time, sequence, taken := GenerateBuilds(PastWorking, g, size, readings);
    var n := Count(size);
    var rs := readings[taken..];
    var st := Emit(PastWorking, g.last, sequence, time, n, rs).value.stamps;
    var prev := Stamp(g.last, g.sequence);
    EmitSequences(PastWorking, g.last, sequence, time, n, rs);
    WorkingStampsAscend(g.last, sequence, time, n, rs);
    AscendingChain(st);
    IdsAscend(g.start, g.worker, st);
    forall i | 0 <= i < n
      ensures IdOf(g.start, g.worker, prev) < IdOf(g.start, g.worker, st[i])
    {
      assert Before(Stamp(time, sequence), st[i]) by {
        if i > 0 {
          BeforeTransitive(Stamp(time, sequence), st[0], st[i]);
        }
      }
      if time > g.last {
        BeforeTransitive(prev, Stamp(time, sequence), st[i]);
      }
      PackOrder(g.last - g.start, g.sequence, st[i].time - g.start, st[i].sequence, g.worker);
    }
  }

  /** With the corrected wait, every id of a call exceeds every id of the call before it. */
  lemma WorkingCallsAscend(g: Gen, size1: int, readings1: seq<int>, size2: int, readings2: seq<int>)
    requires ValidGen(g)
    requires Generate(PastWorking, g, size1, readings1).Some?
    requires Generate(PastWorking, g, size1, readings1).value.result.status == Results.Success
    requires var st := Generate(PastWorking, g, size1, readings1).value;
             var g' := g.(sequence := st.sequence, last := st.last);
             Generate(PastWorking, g', size2, readings2).Some?
             && Generate(PastWorking, g', size2, readings2).value.result.status == Results.Success
    ensures var st := Generate(PastWorking, g, size1, readings1).value;
            var g' := g.(sequence := st.sequence, last := st.last);
            var first, second := st.result.id.value, Generate(PastWorking, g', size2, readings2).value.result.id.value;
            forall i, j :: 0 <= i < |first| && 0 <= j < |second| ==> first[i] < second[j]
  {
    var st := Generate(PastWorking, g, size1, readings1).value;
    var g' := g.(sequence := st.sequence, last := st.last);
    GenerateSuccess(PastWorking, g, size1, readings1);
    WorkingIdsAscend(g, size1, readings1);
    WorkingIdsAscend(g', size2, readings2);
    var first := st.result.id.value;
    assert first[|first| - 1] == IdOf(g.start, g.worker, Stamp(g'.last, g'.sequence));
  }

  /**
   * The calls on which the code as written waits as the corrected code does: the batch
   * cannot wrap from the sequence it continues, or it starts in a new millisecond with
   * at most 4095 ids, or it starts in the stored millisecond with at most 4096.
   */
  predicate StoredWaitSafe(g: Gen, size: int, readings: seq<int>) {
    g.sequence + Count(size) <= MAX_SEQUENCE
    || (|readings| > 0 && readings[0] > g.last && Count(size) <= MAX_SEQUENCE)
    || (|readings| > 0 && readings[0] == g.last && Count(size) <= MAX_SEQUENCE + 1)
    || (|readings| > 1 && 0 < g.last - readings[0] <= MAX_MOVED_BACK_OFFSET && readings[1] == g.last
        && Count(size) <= MAX_SEQUENCE + 1)
  }

  /** On those calls the code as written computes exactly what the corrected code computes. */
  lemma GenerateStoredMatchesWorking(g: Gen, size: int, readings: seq<int>)
    requires ValidGen(g) && StoredWaitSafe(g, size, readings)
    ensures Generate(PastStored, g, size, readings) == Generate(PastWorking, g, size, readings)
  {
    if readings != [] {
      if readings[0] < g.last {
        if g.last - readings[0] <= MAX_MOVED_BACK_OFFSET && |readings| >= 2 && readings[1] >= g.last {
          StoredMatchesWorking(g.last, g.sequence, readings[1], Count(size), readings[2..]);
        }
      } else {
        var sequence := if readings[0] > g.last then 0 else g.sequence;
        StoredMatchesWorking(g.last, sequence, readings[0], Count(size), readings[1..]);
      }
    }
  }

  /**
   * As written, the ids of such a call strictly increase and exceed the id the state it
   * starts from stands for.
   */
  lemma StoredIdsAscend(g: Gen, size: int, readings: seq<int>)
    requires ValidGen(g) && StoredWaitSafe(g, size, readings)
    requires Generate(PastStored, g, size, readings).Some?
    requires Generate(PastStored, g, size, readings).value.result.status == Results.Success
    ensures var ids := Generate(PastStored, g, size, readings).value.result.id.value;
            (forall i, j :: 0 <= i < j < |ids| ==> ids[i] < ids[j])
            && forall i :: 0 <= i < |ids| ==> IdOf(g.start, g.worker, Stamp(g.last, g.sequence)) < ids[i]
  {
    GenerateStoredMatchesWorking(g, size, readings);
    WorkingIdsAscend(g, size, readings);
  }

  /** As written, when both of two successive calls are such calls, the ids of the second exceed every id of the first. */
  lemma StoredCallsAscend(g: Gen, size1: int, readings1: seq<int>, size2: int, readings2: seq<int>)
    requires ValidGen(g) && StoredWaitSafe(g, size1, readings1)
    requires Generate(PastStored, g, size1, readings1).Some?
    requires Generate(PastStored, g, size1, readings1).value.result.status == Results.Success
    requires var st := Generate(PastStored, g, size1, readings1).value;
             var g' := g.(sequence := st.sequence, last := st.last);
             StoredWaitSafe(g', size2, readings2)
             && Generate(PastStored, g', size2, readings2).Some?
             && Generate(PastStored, g', size2, readings2).value.result.status == Results.Success
    ensures var st := Generate(PastStored, g, size1, readings1).value;
            var g' := g.(sequence := st.sequence, last := st.last);
            var first, second := st.result.id.value, Generate(PastStored, g', size2, readings2).value.result.id.value;
            forall i, j :: 0 <= i < |first| && 0 <= j < |second| ==> first[i] < second[j]
  {
    var st := Generate(PastStored, g, size1, readings1).value;
    var g' := g.(sequence := st.sequence, last := st.last);
    GenerateSuccess(PastStored, g, size1, readings1);
    GenerateStoredMatchesWorking(g, size1, readings1);
    GenerateStoredMatchesWorking(g', size2, readings2);
    WorkingCallsAscend(g, size1, readings1, size2, readings2);
  }

  /**
   * The code as written repeats an id: a freshly built generator (sequence 0,
   * lastTimestamp -1) asked for 4097 ids while the clock stays at one reading t >= 0
   * wraps once, waits only for a reading past the stored -1, and so issues
   * (t, sequence 1) a second time.
   */
  lemma StoredWaitRepeatsId(start: int, worker: int, t: int, size: int, readings: seq<int>)
    requires t >= 0 && size == MAX_SEQUENCE + 2
    requires |readings| > size && forall j :: 0 <= j < |readings| ==> readings[j] == t
    ensures var st := Generate(PastStored, Gen(start, worker, 0, -1), size, readings);
            st.Some? && st.value.result.status == Results.Success && st.value.result.id.Some?
            && |st.value.result.id.value| == size
            && st.value.result.id.value[0] == st.value.result.id.value[size - 1]
  {
    var rs := readings[1..];
    assert forall j :: 0 <= j < |rs| ==> rs[j] == readings[j + 1];
    StoredWaitsDefined(-1, 0, t, size, rs);
    var run := Emit(PastStored, -1, 0, t, size, rs).value;
    EmitSequences(PastStored, -1, 0, t, size, rs);
    EmitTimesRead(PastStored, -1, 0, t, size, rs);
    assert run.stamps[0].time == t;
    assert run.stamps[size - 1].time == t;
  }
}
