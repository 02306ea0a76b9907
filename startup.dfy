/**
 * The constructor of SnowflakeIdGenerator: the checks that decide whether a generator is
 * made, with the worker id resolved by `Zookeeper.init`.
 */
module Startup {
  import opened Wrappers
  import opened IdLayout
  import opened AbsGenerator
  import opened Snowflake
  import Zookeeper

  /** Why the constructor of the generator throws. */
  datatype Rejection =
    | StartAhead        // the first reading is before startTimestamp
    | NoIp              // no ip was found
    | InitRaised        // an exception escaped init
    | InitFailed        // init returned false
    | WorkerOutOfRange  // init returned true with a worker id outside 0..MAX_WORKER_ID

  datatype Admission = Admitted(workerId: int) | Rejected(reason: Rejection)

  /**
   * The checks of the constructor, in order: one clock reading against startTimestamp,
   * a non-empty ip, init, and the range of the worker id init leaves. Also the state
   * of the Zookeeper object afterwards and the readings taken.
   */
  function Admit(start: int, v: Zookeeper.Variant, c: Zookeeper.Config, zk: Zookeeper.ZkState, readings: seq<int>)
    : (r: (Admission, Zookeeper.ZkState, nat))
    requires |readings| >= 2
    ensures r.0.Admitted? ==> 0 <= r.0.workerId <= MAX_WORKER_ID
    ensures r.2 >= 1 && (r.0 == Rejected(StartAhead) ==> r.1 == zk && r.2 == 1)
  {
    if readings[0] < start then (Rejected(StartAhead), zk, 1)
    else if c.ip == "" then (Rejected(NoIp), zk, 1)
    else
      var r := Zookeeper.InitSpec(v, c, zk, readings[1..]);
      var admission :=
        match r.outcome
        case Raised => Rejected(InitRaised)
        case Returned(false) => Rejected(InitFailed)
        case Returned(true) =>
          if 0 <= r.state.workerId <= MAX_WORKER_ID then Admitted(r.state.workerId) else Rejected(WorkerOutOfRange);
      (admission, r.state, 1 + r.consumed)
  }

  /** The constructor admits exactly when every check passes, with the worker id init resolved. */
  lemma AdmitConditions(start: int, v: Zookeeper.Variant, c: Zookeeper.Config, zk: Zookeeper.ZkState, readings: seq<int>)
    requires |readings| >= 2
    ensures var init := Zookeeper.InitSpec(v, c, zk, readings[1..]);
            var a := Admit(start, v, c, zk, readings).0;
            (a.Admitted? <==> readings[0] >= start && c.ip != "" && init.outcome == Zookeeper.Returned(true)
                              && 0 <= init.state.workerId <= MAX_WORKER_ID)
            && (a.Admitted? ==> a.workerId == init.state.workerId)
  {
  }

  /**
   * `new SnowflakeIdGenerator(properties)`: null and the reason when a check throws,
   * else a generator with sequence 0, lastTimestamp -1 and the worker id init resolved.
   * The Zookeeper object is given for the host's ip and shares the clock.
   */
  method Create(startTimestamp: int, clock: Clock, zk: Zookeeper.Zookeeper, policy: WaitPolicy)
    returns (g: SnowflakeIdGenerator?, reason: Option<Rejection>)
    requires zk.clock == clock && |clock.readings| >= 2
    modifies clock, zk
    ensures var (admission, st, consumed) := Admit(startTimestamp, zk.variant, zk.config, old(zk.State()), old(clock.readings));
            clock.readings == old(clock.readings)[consumed..] && zk.State() == st
            && (admission.Admitted? ==>
                  g != null && fresh(g) && reason.None? && g.Valid()
                  && g.State() == Gen(startTimestamp, admission.workerId, 0, -1) && g.clock == clock && g.policy == policy)
            && (admission.Rejected? ==> g == null && reason == Some(admission.reason))
  {
    ghost var all := clock.readings;
    var now := clock.CurrentTmp();
    if now < startTimestamp {
      return null, Some(StartAhead);
    }
    if zk.config.ip == "" {
      return null, Some(NoIp);
    }
    var outcome := zk.Init();
    assert clock.readings == all[1 + Zookeeper.InitSpec(zk.variant, zk.config, old(zk.State()), all[1..]).consumed..];
    match outcome
    case Raised =>
      g, reason := null, Some(InitRaised);
    case Returned(false) =>
      g, reason := null, Some(InitFailed);
    case Returned(true) =>
      var w := zk.workerId;
      if 0 <= w <= MAX_WORKER_ID {
        g := new SnowflakeIdGenerator(startTimestamp, w, clock, policy);
        reason := None;
      } else {
        g, reason := null, Some(WorkerOutOfRange);
      }
  }
}
