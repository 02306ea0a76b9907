/**
 * The snowflake id engine: its state (worker id, sequence, last timestamp), the
 * clock-rollback policy of `id(size)` and the batch loop of `build(curTmp, size)`.
 *
 * The pure functions Emit, Batch and Generate say what one call computes from the
 * generator state and the clock readings it will see; the class SnowflakeIdGenerator
 * is the imperative engine, proved to follow them. Each function takes a WaitPolicy:
 * PastStored is the code as written (on a sequence wrap it waits for a reading past the
 * stored lastTimestamp), PastWorking the corrected wait (past the working timestamp).
 */
module Snowflake {
  import opened Wrappers
  import opened IdLayout
  import opened AbsGenerator
  import Results

  datatype WaitPolicy = PastStored | PastWorking

  /** The reading a wrap must exceed: the stored lastTimestamp, or the working timestamp. */
  function WaitBound(policy: WaitPolicy, stored: int, time: int): int {
    if policy == PastStored then stored else time
  }

  /** The timestamp and sequence number one id is built from. */
  datatype Stamp = Stamp(time: int, sequence: int)

  /** The ids' stamps of a batch, the final sequence and working timestamp, and how many readings it took. */
  datatype Run = Run(stamps: seq<Stamp>, sequence: int, time: int, consumed: nat)

  /**
   * The `for` loop of build: n more ids from the given sequence number and working
   * timestamp; None when the readings run out before a needed wait ends.
   */
  function Emit(policy: WaitPolicy, stored: int, sequence: int, time: int, n: nat, readings: seq<int>): (r: Option<Run>)
    ensures r.Some? ==> |r.value.stamps| == n && r.value.consumed <= |readings|
    decreases n
  {
    if n == 0 then Some(Run([], sequence, time, 0))
    else
      var s := (sequence + 1) % (MAX_SEQUENCE + 1);
      if s != 0 then
        match Emit(policy, stored, s, time, n - 1, readings)
        case None => None
        case Some(run) => Some(Run([Stamp(time, s)] + run.stamps, run.sequence, run.time, run.consumed))
      else
        match NextAbove(readings, WaitBound(policy, stored, time))
        case None => None
        case Some(k) =>
          match Emit(policy, stored, s, readings[k], n - 1, readings[k + 1..])
          case None => None
          case Some(run) => Some(Run([Stamp(readings[k], s)] + run.stamps, run.sequence, run.time, k + 1 + run.consumed))
  }

  /**
   * One turn of the loop: from the sequence number and working timestamp it leaves, and
   * the readings that remain, the rest of the batch follows.
   */
  lemma EmitAdvance(policy: WaitPolicy, stored: int, sequence: int, time: int, n: nat, readings: seq<int>,
                    run: Run, sequence': int, time': int, readings': seq<int>)
    requires n > 0 && Emit(policy, stored, sequence, time, n, readings) == Some(run)
    requires sequence' == (sequence + 1) % (MAX_SEQUENCE + 1)
    requires var next := NextAbove(readings, WaitBound(policy, stored, time));
             if sequence' == 0
             then next.Some? && time' == readings[next.value] && readings' == readings[next.value + 1..]
             else time' == time && readings' == readings
    ensures |readings'| <= |readings|
    ensures var rest := Emit(policy, stored, sequence', time', n - 1, readings');
            rest.Some? && run.stamps == [Stamp(time', sequence')] + rest.value.stamps
            && run.sequence == rest.value.sequence && run.time == rest.value.time
            && run.consumed == |readings| - |readings'| + rest.value.consumed
  {
  }

  /** When a wait is needed, there is a reading that ends it. */
  lemma EmitWaitEnds(policy: WaitPolicy, stored: int, sequence: int, time: int, n: nat, readings: seq<int>)
    requires n > 0 && Emit(policy, stored, sequence, time, n, readings).Some?
    requires (sequence + 1) % (MAX_SEQUENCE + 1) == 0
    ensures NextAbove(readings, WaitBound(policy, stored, time)).Some?
  {
  }

  lemma RestOfSuffix(all: seq<int>, used: nat, rs: seq<int>, rs': seq<int>)
    requires used <= |all| && rs == all[used..]
    requires |rs'| <= |rs| && rs' == rs[|rs| - |rs'|..]
    ensures used + (|rs| - |rs'|) <= |all| && rs' == all[used + (|rs| - |rs'|)..]
  {
  }

  lemma StampsShift(done: seq<Stamp>, stamp: Stamp, rest: seq<Stamp>, rest': seq<Stamp>)
    requires rest == [stamp] + rest'
    ensures done + rest == (done + [stamp]) + rest'
  {
  }

  /** The generator's fields. */
  datatype Gen = Gen(start: int, worker: int, sequence: int, last: int)

  ghost predicate ValidGen(g: Gen) {
    InFields(g.worker, g.sequence)
  }

  /** What one call returns, the new sequence and lastTimestamp, and how many clock readings it took. */
  datatype Step = Step(result: Results.Result, sequence: int, last: int, consumed: nat)

  /** `size <= 0 ? 1 : size` */
  function Count(size: int): nat {
    if size <= 0 then 1 else size
  }

  /** The ids a batch returns, one per stamp, in order. */
  function Ids(start: int, worker: int, stamps: seq<Stamp>): seq<int>
  {
    seq(|stamps|, i requires 0 <= i < |stamps| => IdOf(start, worker, stamps[i]))
  }

  /** `((time - start) << 22) | (worker << 12) | sequence` */
  function IdOf(start: int, worker: int, stamp: Stamp): int {
    Pack(stamp.time - start, worker, stamp.sequence)
  }

  /** `build(time, size)`: the batch, with lastTimestamp set to the final working timestamp. */
  function Batch(policy: WaitPolicy, start: int, worker: int, last: int, sequence: int, time: int, size: int, readings: seq<int>): Option<Step> {
    match Emit(policy, last, sequence, time, Count(size), readings)
    case None => None
    case Some(run) => Some(Step(Results.Id(Ids(start, worker, run.stamps)), run.sequence, run.time, run.consumed))
  }

  function AfterReads(step: Option<Step>, taken: nat): Option<Step> {
    match step
    case None => None
    case Some(st) => Some(st.(consumed := st.consumed + taken))
  }

  /** `id(size)`: the rollback policy in front of build. */
  function Generate(policy: WaitPolicy, g: Gen, size: int, readings: seq<int>): Option<Step> {
    if readings == [] then None
    else if readings[0] < g.last then
      if g.last - readings[0] <= MAX_MOVED_BACK_OFFSET then
        if |readings| < 2 then None
        else if readings[1] < g.last then
          Some(Step(Results.SystemClockGoBack(readings[1], g.last), g.sequence, g.last, 2))
        else
          AfterReads(Batch(policy, g.start, g.worker, g.last, g.sequence, readings[1], size, readings[2..]), 2)
      else
        Some(Step(Results.SystemClockGoBack(readings[0], g.last), g.sequence, g.last, 1))
    else
      var sequence := if readings[0] > g.last then 0 else g.sequence;
      AfterReads(Batch(policy, g.start, g.worker, g.last, sequence, readings[0], size, readings[1..]), 1)
  }

  class SnowflakeIdGenerator {
    const startTimestamp: int
    const workerId: int
    const clock: Clock
    /** PastStored for the Java class as written. */
    const policy: WaitPolicy
    var sequence: int
    var lastTimestamp: int

    ghost predicate Valid()
      reads this
    {
      ValidGen(State())
    }

    function State(): Gen
      reads this
    {
      Gen(startTimestamp, workerId, sequence, lastTimestamp)
    }

    /** The fields once the checks of the Java constructor have passed. */
    constructor (startTimestamp: int, workerId: int, clock: Clock, policy: WaitPolicy)
      requires 0 <= workerId <= MAX_WORKER_ID
      ensures Valid() && State() == Gen(startTimestamp, workerId, 0, -1)
      ensures this.clock == clock && this.policy == policy
    {
      this.policy := policy;
      this.startTimestamp := startTimestamp;
      this.workerId := workerId;
      this.clock := clock;
      this.sequence := 0;
      this.lastTimestamp := -1;
    }

    /**
     * `id(size)`. The requires only says that the modelled clock has enough readings
     * for this call; the wait of `LockSupport.parkNanos` is the step to the next reading.
     */
    method Id(size: int) returns (r: Results.Result)
      requires Valid()
      requires Generate(policy, State(), size, clock.readings).Some?
      modifies this, clock
      ensures Valid()
      ensures var st := Generate(policy, old(State()), size, old(clock.readings)).value;
              r == st.result && sequence == st.sequence && lastTimestamp == st.last
              && clock.readings == old(clock.readings)[st.consumed..]
    {
      ghost var all := clock.readings;
      var curTmp := clock.CurrentTmp();
      if curTmp < lastTimestamp {
        var offset := lastTimestamp - curTmp;
        if offset <= MAX_MOVED_BACK_OFFSET {
          curTmp := clock.CurrentTmp();
          if curTmp < lastTimestamp {
            return Results.SystemClockGoBack(curTmp, lastTimestamp);
          }
          assert clock.readings == all[2..];
        } else {
          return Results.SystemClockGoBack(curTmp, lastTimestamp);
        }
      } else if curTmp > lastTimestamp {
        sequence := 0;
      }
      ghost var before := clock.readings;
      r := Build(curTmp, size);
      assert clock.readings == all[|all| - |before| ..][|before| - |clock.readings|..];
    }

    /** `build(curTmp, size)` */
    method Build(curTmp: int, size: int) returns (r: Results.Result)
      requires Valid()
      requires Batch(policy, startTimestamp, workerId, lastTimestamp, sequence, curTmp, size, clock.readings).Some?
      modifies this, clock
      ensures Valid()
      ensures var st := Batch(policy, startTimestamp, workerId, old(lastTimestamp), old(sequence), curTmp, size, old(clock.readings)).value;
              r == st.result && sequence == st.sequence && lastTimestamp == st.last
              && clock.readings == old(clock.readings)[st.consumed..]
    {
      var count := if size <= 0 then 1 else size;
      var idList, sq, time := BuildLoop(policy, clock, startTimestamp, workerId, lastTimestamp, sequence, curTmp, count);
      sequence, lastTimestamp := sq, time;
      r := Results.Id(idList);
    }
  }

  /**
   * The wait inside build's loop: the next sequence number and, on a wrap, the
   * working timestamp `tillNextMillis(last)` returns.
   */
  method NextSequence(policy: WaitPolicy, clock: Clock, last: int, sequence: int, time: int, ghost n: nat)
    returns (sq: int, time': int)
    requires n > 0 && Emit(policy, last, sequence, time, n, clock.readings).Some?
    modifies clock
    ensures sq == (sequence + 1) % (MAX_SEQUENCE + 1)
    ensures var next := NextAbove(old(clock.readings), WaitBound(policy, last, time));
            if sq == 0
            then next.Some? && time' == old(clock.readings)[next.value] && clock.readings == old(clock.readings)[next.value + 1..]
            else time' == time && clock.readings == old(clock.readings)
  {
    sq, time' := (sequence + 1) % (MAX_SEQUENCE + 1), time;
    if sq == 0 {
      EmitWaitEnds(policy, last, sequence, time, n, clock.readings);
      time' := TillNextMillis(clock, WaitBound(policy, last, time));
    }
  }

  /** One turn of build's loop keeps the loop's invariants. */
  lemma LoopStep(policy: WaitPolicy, last: int, all: seq<int>, used: nat, full: Run, stamps: seq<Stamp>, rest: Run, n: nat,
                 s0: int, t0: int, sq: int, time: int, rs': seq<int>)
    returns (used': nat, rest': Run)
    requires n > 0 && used <= |all|
    requires Emit(policy, last, s0, t0, n, all[used..]) == Some(rest)
    requires full.stamps == stamps + rest.stamps && full.sequence == rest.sequence
    requires full.time == rest.time && full.consumed == used + rest.consumed
    requires sq == (s0 + 1) % (MAX_SEQUENCE + 1)
    requires var next := NextAbove(all[used..], WaitBound(policy, last, t0));
             if sq == 0
             then next.Some? && time == all[used..][next.value] && rs' == all[used..][next.value + 1..]
             else time == t0 && rs' == all[used..]
    ensures used' <= |all| && rs' == all[used'..]
    ensures Emit(policy, last, sq, time, n - 1, all[used'..]) == Some(rest')
    ensures full.stamps == (stamps + [Stamp(time, sq)]) + rest'.stamps && full.sequence == rest'.sequence
    ensures full.time == rest'.time && full.consumed == used' + rest'.consumed
  {
    var rs := all[used..];
    EmitAdvance(policy, last, s0, t0, n, rs, rest, sq, time, rs');
    rest' := Emit(policy, last, sq, time, n - 1, rs').value;
    StampsShift(stamps, Stamp(time, sq), rest.stamps, rest'.stamps);
    RestOfSuffix(all, used, rs, rs');
    used' := used + (|rs| - |rs'|);
  }

  /** The ghost bookkeeping of build's loop: what is left of the batch after the stamps emitted so far. */
  ghost predicate Accounted(policy: WaitPolicy, last: int, all: seq<int>, used: nat, full: Run, stamps: seq<Stamp>,
                            rest: Run, sq: int, time: int, n: nat)
  {
    used <= |all| && Emit(policy, last, sq, time, n, all[used..]) == Some(rest)
    && full.stamps == stamps + rest.stamps && full.sequence == rest.sequence
    && full.time == rest.time && full.consumed == used + rest.consumed
  }

  /** The ids listed so far are those of the stamps emitted so far. */
  ghost predicate Listed(start: int, worker: int, idList: seq<int>, stamps: seq<Stamp>) {
    |idList| == |stamps| && forall j :: 0 <= j < |stamps| ==> idList[j] == IdOf(start, worker, stamps[j])
  }

  /** One turn of build's loop: the next sequence number, the wait on a wrap, and the id appended. */
  method BuildStep(policy: WaitPolicy, clock: Clock, start: int, worker: int, last: int, sq: int, time: int, idList: seq<int>,
                   ghost all: seq<int>, ghost used: nat, ghost full: Run, ghost stamps: seq<Stamp>, ghost rest: Run, ghost n: nat)
    returns (sq': int, time': int, idList': seq<int>, ghost used': nat, ghost rest': Run)
    requires n > 0 && Accounted(policy, last, all, used, full, stamps, rest, sq, time, n) && clock.readings == all[used..]
    requires Listed(start, worker, idList, stamps)
    modifies clock
    ensures Accounted(policy, last, all, used', full, stamps + [Stamp(time', sq')], rest', sq', time', n - 1)
    ensures clock.readings == all[used'..]
    ensures Listed(start, worker, idList', stamps + [Stamp(time', sq')])
    ensures 0 <= sq' <= MAX_SEQUENCE
  {
    sq', time' := NextSequence(policy, clock, last, sq, time, n);
    var id := Pack(time' - start, worker, sq');
    idList' := idList + [id];
    used', rest' := LoopStep(policy, last, all, used, full, stamps, rest, n, sq, time, sq', time', clock.readings);
  }

  /**
   * The `for` loop of build over its local copies of the fields: count ids from the
   * given sequence number and working timestamp, waiting past `last` on each wrap.
   */
  method BuildLoop(policy: WaitPolicy, clock: Clock, start: int, worker: int, last: int, sequence: int, curTmp: int, count: nat)
    returns (idList: seq<int>, sq: int, time: int)
    requires 0 <= sequence <= MAX_SEQUENCE
    requires Emit(policy, last, sequence, curTmp, count, clock.readings).Some?
    modifies clock
    ensures var run := Emit(policy, last, sequence, curTmp, count, old(clock.readings)).value;
            idList == Ids(start, worker, run.stamps) && sq == run.sequence && time == run.time
            && clock.readings == old(clock.readings)[run.consumed..]
    ensures 0 <= sq <= MAX_SEQUENCE
  {
    sq, time := sequence, curTmp;
    idList := [];
    ghost var all := clock.readings;
    ghost var full := Emit(policy, last, sq, time, count, all).value;
    ghost var stamps: seq<Stamp> := [];
    ghost var rest := full;
    ghost var used: nat := 0;
    assert all[used..] == all;
    for i := 0 to count
      invariant Accounted(policy, last, all, used, full, stamps, rest, sq, time, count - i)
      invariant clock.readings == all[used..]
      invariant Listed(start, worker, idList, stamps)
      invariant 0 <= sq <= MAX_SEQUENCE
    {
      sq, time, idList, used, rest := BuildStep(policy, clock, start, worker, last, sq, time, idList,
                                                all, used, full, stamps, rest, count - i);
      stamps := stamps + [Stamp(time, sq)];
    }
    assert rest == Run([], sq, time, 0);
    assert stamps == full.stamps;
    assert idList == Ids(start, worker, stamps);
  }
}
