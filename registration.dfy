/**
 * What registration achieves across hosts and restarts. With the source as written, the
 * node is PERSISTENT, so its name carries no number, and the worker id is read from the
 * second `-` field of the full path. With the evidently intended form (a sequential node,
 * and the number read from the created child's name), a restart finds its own id again
 * and two hosts get different ids.
 */
module Registration {
  import opened Wrappers
  import Text
  import opened Coordination
  import opened LocalCache
  import opened Zookeeper

  /** An ip that can appear in a node name: no `-` (the field separator) and no `/`. */
  predicate PlainHost(c: Config) {
    '-' !in c.ip && '/' !in c.ip && c.port >= 0
  }

  /** A fresh Zookeeper object on a host whose store and disk are as given. */
  function Restarted(s: Store, d: Disk): ZkState {
    ZkState(s, d, None, 0, None)
  }

  /** The listen address of a plain host holds neither `-` nor `/`. */
  lemma PlainAddress(c: Config)
    requires PlainHost(c)
    ensures '-' !in ListenAddress(c) && '/' !in ListenAddress(c)
  {
    var digits := Text.FormatDecimal(c.port);
    assert Text.AllDigits(digits);
    assert ListenAddress(c) == c.ip + ":" + digits;
  }

  /** The sequential child of a plain host is `address-counter`, its two fields. */
  lemma SequentialKey(c: Config, cv: nat)
    requires PlainHost(c) && cv <= Text.INT_MAX
    ensures var key := NodePrefix(c) + Pad10(cv);
            Text.Split(key, '-') == [ListenAddress(c), Pad10(cv)] && '/' !in key
            && SecondField(key) == Some(cv)
  {
    PlainAddress(c);
    Pad10Value(cv);
    var key := NodePrefix(c) + Pad10(cv);
    assert key == ListenAddress(c) + ['-'] + Pad10(cv);
    Text.SplitTwo(ListenAddress(c), '-', Pad10(cv));
    assert forall i :: 0 <= i < |Pad10(cv)| ==> Text.IsDigit(Pad10(cv)[i]);
  }

  /** The corrected form reads the counter back from the created path. */
  lemma SequentialWorkerId(c: Config, cv: nat)
    requires PlainHost(c) && cv <= Text.INT_MAX
    ensures WorkerIdOf(Corrected, ChildPath(PersistencePath(c), NodePrefix(c) + Pad10(cv))) == Some(cv)
  {
    SequentialKey(c, cv);
    NodeNameOfChild(PersistencePath(c), NodePrefix(c) + Pad10(cv));
  }

  /** The store and host conditions under which a corrected registration of a new address goes through. */
  predicate CanRegister(c: Config, st: ZkState)
  {
    var s := st.store;
    PlainHost(c) && s.reachable && s.rootExists && s.cversion <= Text.INT_MAX
    && Index(s.children).Some? && ListenAddress(c) !in Index(s.children).value.nodeMap
    && ChildPath(PersistencePath(c), NodePrefix(c) + Pad10(s.cversion)) !in s.nodes
    && CacheWritable(st.disk)
  }

  /** With the parent present and the address unknown, init goes to createNode. */
  lemma NewAddressBranch(v: Variant, c: Config, st: ZkState, readings: seq<int>)
    requires |readings| >= 1 && st.store.reachable && st.store.rootExists
    requires Index(st.store.children).Some? && ListenAddress(c) !in Index(st.store.children).value.nodeMap
    ensures RegisterSpec(v, c, st, readings) == NewNode(v, c, st, readings[0], false)
  {
  }

  /** A create that goes through, a path that yields a worker id and a writable cache: the new-address branch succeeds. */
  lemma NewNodeSucceeds(v: Variant, c: Config, st: ZkState, now: int)
    requires CreateNode(v, c, st.store, now).Done? && WorkerIdOf(v, CreateNode(v, c, st.store, now).value.0).Some?
    requires CacheWritable(st.disk)
    ensures var (path, s') := CreateNode(v, c, st.store, now).value;
            var w := WorkerIdOf(v, path).value;
            var a := NewNode(v, c, st, now, false);
            a.branch == Some(Registered) && a.consumed == 1
            && a.state == ZkState(s', Mount(st.disk, w).disk, Some(path), w, Some(path))
  {
    var (path, s') := CreateNode(v, c, st.store, now).value;
    MountThenRead(st.disk, WorkerIdOf(v, path).value);
  }

  /**
   * A new address, corrected: the node gets the next counter, the counter becomes the
   * worker id and is written to the cache, and the heartbeat watches the new node.
   */
  lemma CorrectedRegistersNew(c: Config, st: ZkState, readings: seq<int>)
    requires |readings| >= 1 && CanRegister(c, st)
    ensures var a := RegisterSpec(Corrected, c, st, readings);
            var name := NodePrefix(c) + Pad10(st.store.cversion);
            var path := ChildPath(PersistencePath(c), name);
            a.branch == Some(Registered) && a.consumed == 1
            && a.state.workerId == st.store.cversion
            && a.state.addressNode == Some(path) && a.state.heartbeat == Some(path)
            && a.state.store.children == st.store.children + [name]
            && a.state.store.nodes == st.store.nodes[path := EndpointData(c, readings[0])]
            && a.state.store.cversion == st.store.cversion + 1
            && a.state.store.reachable && a.state.store.rootExists
            && ReadCache(a.state.disk) == Cached(st.store.cversion)
  {
    var cv := st.store.cversion;
    NewAddressBranch(Corrected, c, st, readings);
    SequentialWorkerId(c, cv);
    NewNodeSucceeds(Corrected, c, st, readings[0]);
    MountThenRead(st.disk, cv);
  }

  /**
   * A restart after a corrected registration, with the clock past the registration time,
   * takes the known-address branch and gets the same node and the same worker id back.
   */
  lemma CorrectedRestartReuses(c: Config, st: ZkState, first: seq<int>, second: seq<int>)
    requires |first| >= 1 && |second| >= 1 && CanRegister(c, st)
    requires second[0] > first[0]
    ensures var a := RegisterSpec(Corrected, c, st, first);
            var b := RegisterSpec(Corrected, c, Restarted(a.state.store, a.state.disk), second);
            b.branch == Some(Reused) && b.state.workerId == a.state.workerId == st.store.cversion
            && b.state.addressNode == a.state.addressNode && b.state.store == a.state.store
  {
    CorrectedRegistersNew(c, st, first);
    var a := RegisterSpec(Corrected, c, st, first);
    var cv := st.store.cversion;
    var name := NodePrefix(c) + Pad10(cv);
    var keys := a.state.store.children;
    SequentialKey(c, cv);
    assert keys[..|keys| - 1] == st.store.children;
    AddKeyLookup(Index(st.store.children).value, name, ListenAddress(c));
    var ch := Index(keys).value;
    assert ch.nodeMap[ListenAddress(c)] == cv && ch.realNode[ListenAddress(c)] == name;
  }

  /** A new child that does not name another address leaves that address unknown. */
  lemma AppendedKey(children: seq<string>, key: string, other: string)
    requires Index(children).Some? && !BadKey(key) && !Names(key, other)
    ensures Index(children + [key]).Some?
    ensures other in Index(children + [key]).value.nodeMap <==> other in Index(children).value.nodeMap
  {
    var keys := children + [key];
    assert keys[..|keys| - 1] == children;
    AddKeyLookup(Index(children).value, key, other);
  }

  /**
   * Two plain hosts of one service that register one after the other, corrected, get
   * different worker ids: the counter and the counter plus one.
   */
  lemma CorrectedDistinctWorkers(c1: Config, c2: Config, st: ZkState, d2: Disk, first: seq<int>, second: seq<int>)
    requires |first| >= 1 && |second| >= 1 && CanRegister(c1, st)
    requires c2.serviceName == c1.serviceName && PlainHost(c2) && ListenAddress(c2) != ListenAddress(c1)
    requires ListenAddress(c2) !in Index(st.store.children).value.nodeMap
    requires st.store.cversion + 1 <= Text.INT_MAX
    requires ChildPath(PersistencePath(c2), NodePrefix(c2) + Pad10(st.store.cversion + 1)) !in st.store.nodes
    requires CacheWritable(d2)
    ensures var a := RegisterSpec(Corrected, c1, st, first);
            var b := RegisterSpec(Corrected, c2, Restarted(a.state.store, d2), second);
            a.branch == Some(Registered) && b.branch == Some(Registered)
            && a.state.workerId == st.store.cversion && b.state.workerId == st.store.cversion + 1
  {
    CorrectedRegistersNew(c1, st, first);
    var a := RegisterSpec(Corrected, c1, st, first);
    var cv := st.store.cversion;
    var name1 := NodePrefix(c1) + Pad10(cv);
    var name2 := NodePrefix(c2) + Pad10(cv + 1);
    SequentialKey(c1, cv);
    SequentialKey(c2, cv + 1);
    AppendedKey(st.store.children, name1, ListenAddress(c2));
    if ChildPath(PersistencePath(c2), name2) == ChildPath(PersistencePath(c1), name1) {
      ChildPathInjective(PersistencePath(c1), name1, name2);
      assert false;
    }
    var st2 := Restarted(a.state.store, d2);
    assert CanRegister(c2, st2);
    CorrectedRegistersNew(c2, st2, second);
  }

  /**
   * As written, a plain host in a service whose name holds no `-` can register a new
   * address only by creating the persistence node: otherwise the create fails or the
   * path has no second `-` field, and init falls back to the cache; with no cache file,
   * init returns false.
   */
  lemma AsWrittenNewAddressFails(c: Config, st: ZkState, readings: seq<int>)
    requires |readings| >= 1 && PlainHost(c) && '-' !in c.serviceName
    requires st.store.reachable && st.store.rootExists
    requires Index(st.store.children).Some? && ListenAddress(c) !in Index(st.store.children).value.nodeMap
    ensures RegisterSpec(AsWritten, c, st, readings).thrown
    ensures st.disk.file.None? ==> InitSpec(AsWritten, c, st, readings).outcome == Returned(false)
  {
    PlainAddress(c);
    var path := ChildPath(PersistencePath(c), NodePrefix(c));
    var head := PersistencePath(c) + "/" + ListenAddress(c);
    assert path == head + ['-'];
    assert '-' !in head by {
      assert head == ROOT + c.serviceName + "/persistence/" + ListenAddress(c);
    }
    Text.SplitTrailing(head, '-');
  }

  /** As written, the first host's node carries no number: on a restart it is not recognised. */
  lemma AsWrittenNodeUnnumbered(c: Config)
    requires PlainHost(c)
    ensures !Numbered(NodePrefix(c), ListenAddress(c)) && Names(NodePrefix(c), ListenAddress(c))
  {
    PlainAddress(c);
    Text.SplitTrailing(ListenAddress(c), '-');
  }

  /** The service name that shows the shared worker id. */
  const DASHED_SERVICE: string := "a-7-b"

  /** The persistence path of the service `a-7-b`, cut at its two dashes. */
  lemma DashedPath(c: Config)
    requires c.serviceName == DASHED_SERVICE
    ensures ChildPath(PersistencePath(c), NodePrefix(c))
            == "/leaf/snowflake/a" + ['-'] + "7" + ['-'] + ("b/persistence/" + NodePrefix(c))
  {
  }

  /** As written, in the service `a-7-b` every new address reads worker id 7 from its path. */
  lemma AsWrittenDashedServiceId(c: Config)
    requires c.serviceName == DASHED_SERVICE
    ensures WorkerIdOf(AsWritten, ChildPath(PersistencePath(c), NodePrefix(c))) == Some(7)
  {
    DashedPath(c);
    var rest := "b/persistence/" + NodePrefix(c);
    Text.SplitLeadingTwo("/leaf/snowflake/a", '-', "7", rest);
    var parts := Text.Split("/leaf/snowflake/a" + ['-'] + "7" + ['-'] + rest, '-');
    assert parts[1] == "7";
    assert Text.ParseInt("7") == Some(7);
  }

  /**
   * As written, two plain hosts of the service `a-7-b` that register one after the other
   * both get worker id 7, so both generators pack ids with the same worker field.
   */
  lemma AsWrittenSharedWorkerId(c1: Config, c2: Config, st: ZkState, d2: Disk, first: seq<int>, second: seq<int>)
    requires |first| >= 1 && |second| >= 1
    requires c1.serviceName == DASHED_SERVICE && c2.serviceName == DASHED_SERVICE
    requires PlainHost(c1) && PlainHost(c2) && ListenAddress(c1) != ListenAddress(c2)
    requires st.store.reachable && st.store.rootExists && CacheWritable(st.disk) && CacheWritable(d2)
    requires Index(st.store.children).Some?
    requires ListenAddress(c1) !in Index(st.store.children).value.nodeMap
    requires ListenAddress(c2) !in Index(st.store.children).value.nodeMap
    requires ChildPath(PersistencePath(c1), NodePrefix(c1)) !in st.store.nodes
    requires ChildPath(PersistencePath(c2), NodePrefix(c2)) !in st.store.nodes
    ensures var a := RegisterSpec(AsWritten, c1, st, first);
            var b := RegisterSpec(AsWritten, c2, Restarted(a.state.store, d2), second);
            a.branch == Some(Registered) && b.branch == Some(Registered)
            && a.state.workerId == 7 && b.state.workerId == 7
  {
    AsWrittenDashedServiceId(c1);
    AsWrittenDashedServiceId(c2);
    NewAddressBranch(AsWritten, c1, st, first);
    NewNodeSucceeds(AsWritten, c1, st, first[0]);
    var a := RegisterSpec(AsWritten, c1, st, first);
    assert a.state.store.children == st.store.children + [NodePrefix(c1)];
    PlainAddress(c1);
    Text.SplitTrailing(ListenAddress(c1), '-');
    AppendedKey(st.store.children, NodePrefix(c1), ListenAddress(c2));
    assert NodePrefix(c1)[..|NodePrefix(c1)| - 1] == ListenAddress(c1);
    assert NodePrefix(c2)[..|NodePrefix(c2)| - 1] == ListenAddress(c2);
    if ChildPath(PersistencePath(c2), NodePrefix(c2)) == ChildPath(PersistencePath(c1), NodePrefix(c1)) {
      ChildPathInjective(PersistencePath(c1), NodePrefix(c1), NodePrefix(c2));
      assert false;
    }
    var st2 := Restarted(a.state.store, d2);
    NewAddressBranch(AsWritten, c2, st2, second);
    NewNodeSucceeds(AsWritten, c2, st2, second[0]);
  }
}
