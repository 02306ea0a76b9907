/**
 * The bit layout of a snowflake id: | sign (1) | timestamp delta (41) | worker id (10) | sequence (12) |.
 * The masks are computed as the Java code does, `~(-1L << bits)`, on 64-bit vectors.
 */
module IdLayout {

  const WORKER_ID_BIT: bv64 := 10
  const SEQUENCE_BIT: bv64 := 12
  const MAX_WORKER_ID: int := 1023
  const MAX_SEQUENCE: int := 4095
  const WORKER_ID_LEFT_SHIFT_BIT: int := SEQUENCE_BIT as int
  const TIMESTAMP_LEFT_SHIFT_BIT: int := (SEQUENCE_BIT + WORKER_ID_BIT) as int
  /** Largest clock rollback, in milliseconds, that the generator waits out. */
  const MAX_MOVED_BACK_OFFSET: int := 3

  /** `~(-1L << bits)` */
  function LowMask(bits: bv64): int
    requires bits < 64
  {
    (!((!(0 as bv64)) << bits)) as int
  }

  /** The masks computed from the field widths, and the shifts, have the values the layout uses. */
  lemma FieldConstants()
    ensures LowMask(WORKER_ID_BIT) == MAX_WORKER_ID && LowMask(SEQUENCE_BIT) == MAX_SEQUENCE
    ensures WORKER_ID_LEFT_SHIFT_BIT == 12 && TIMESTAMP_LEFT_SHIFT_BIT == 22
    ensures TIMESTAMP_UNIT == (MAX_WORKER_ID + 1) * WORKER_UNIT && WORKER_UNIT == MAX_SEQUENCE + 1
  {
  }

  /** Number of distinct values of the fields below the timestamp (2^22) and below the worker id (2^12). */
  const TIMESTAMP_UNIT: int := 4194304
  const WORKER_UNIT: int := 4096

  /**
   * `delta << 22 | worker << 12 | sequence`. With the worker id and the sequence inside their
   * fields the three parts occupy disjoint bits, so the or is a sum.
   */
  function Pack(delta: int, worker: int, sequence: int): int {
    delta * TIMESTAMP_UNIT + worker * WORKER_UNIT + sequence
  }

  /** `id >> 22` (an arithmetic shift rounds toward minus infinity). */
  function DeltaOf(id: int): int {
    id / TIMESTAMP_UNIT
  }

  /** `(id >> 12) & MAX_WORKER_ID` */
  function WorkerOf(id: int): int {
    (id / WORKER_UNIT) % 1024
  }

  /** `id & MAX_SEQUENCE` */
  function SequenceOf(id: int): int {
    id % WORKER_UNIT
  }

  predicate InFields(worker: int, sequence: int) {
    0 <= worker <= 1023 && 0 <= sequence <= 4095
  }

  /** Unpacking a packed id gives back the three fields it was built from. */
  lemma PackRoundTrip(delta: int, worker: int, sequence: int)
    requires InFields(worker, sequence)
    ensures DeltaOf(Pack(delta, worker, sequence)) == delta
    ensures WorkerOf(Pack(delta, worker, sequence)) == worker
    ensures SequenceOf(Pack(delta, worker, sequence)) == sequence
  {
    var id := Pack(delta, worker, sequence);
    var low := worker * WORKER_UNIT + sequence;
    assert 0 <= low < TIMESTAMP_UNIT;
    assert id == delta * 4194304 + low;
    assert id / 4194304 == delta;
    assert id == (delta * 1024 + worker) * 4096 + sequence;
    assert id / 4096 == delta * 1024 + worker;
    assert id % 4096 == sequence;
    assert (delta * 1024 + worker) % 1024 == worker;
  }

  /** Ids of one worker order as their (delta, sequence) pairs do, lexicographically. */
  lemma PackOrder(d1: int, s1: int, d2: int, s2: int, worker: int)
    requires InFields(worker, s1) && InFields(worker, s2)
    requires d1 < d2 || (d1 == d2 && s1 < s2)
    ensures Pack(d1, worker, s1) < Pack(d2, worker, s2)
  {
  }
}
