/**
 * Worker-id resolution through the coordination service (`Zookeeper.init`): the address
 * and path strings, the parsing of the children of the persistence node, the choice
 * between a missing root, a known address and a new address, the stale-timestamp check,
 * the local cache, and the heartbeat body `syncTimestamp`.
 *
 * `RegisterSpec` and `InitSpec` say what one call does to a `ZkState` value; the class
 * `Zookeeper` holds the same state in fields and its methods are proved to follow them.
 */
module Zookeeper {
  import opened Wrappers
  import Text
  import opened Coordination
  import opened LocalCache
  import AbsGenerator

  const ROOT: string := "/leaf/snowflake/"

  /** What the constructor is given: the host's ip, the service port and name, and the cache directory. */
  datatype Config = Config(ip: string, port: int, serviceName: string, cacheRoot: string)

  /** `LISTEN_ADDRESS`: `ip:port`. */
  function ListenAddress(c: Config): string {
    c.ip + ":" + Text.FormatDecimal(c.port)
  }

  /** `PRE_PATH` */
  function PrePath(c: Config): string {
    ROOT + c.serviceName
  }

  /** `PERSISTENCE_PATH`: the parent of every registered address. */
  function PersistencePath(c: Config): string {
    PrePath(c) + "/persistence"
  }

  /** `String.format(WORK_ID_CACHE_PATH, PORT)`, with `/` as the file separator. */
  function CachePath(c: Config): string {
    c.cacheRoot + "/" + c.serviceName + "/conf/" + Text.FormatDecimal(c.port) + "/work_id.properties"
  }

  /** The name createNode asks for under the persistence node: the address and a dash. */
  function NodePrefix(c: Config): string {
    ListenAddress(c) + "-"
  }

  /** Two hosts with ips free of `:` have the same listen address only when ip and port agree. */
  lemma ListenAddressInjective(c1: Config, c2: Config)
    requires ':' !in c1.ip && ':' !in c2.ip
    requires ListenAddress(c1) == ListenAddress(c2)
    ensures c1.ip == c2.ip && c1.port == c2.port
  {
    var a := ListenAddress(c1);
    assert a == c1.ip + (":" + Text.FormatDecimal(c1.port));
    assert a == c2.ip + (":" + Text.FormatDecimal(c2.port));
    assert a[|c1.ip|] == ':' && a[|c2.ip|] == ':';
    assert c1.ip == a[..|c1.ip|] == c2.ip;
    assert Text.FormatDecimal(c1.port) == a[|c1.ip| + 1..] == Text.FormatDecimal(c2.port);
    Text.FormatDecimalInjective(c1.port, c2.port);
  }

  /** Services sharing a cache directory keep one cache file per port. */
  lemma CachePathPerPort(c1: Config, c2: Config)
    requires c1.cacheRoot == c2.cacheRoot && c1.serviceName == c2.serviceName
    requires CachePath(c1) == CachePath(c2)
    ensures c1.port == c2.port
  {
    var head := c1.cacheRoot + "/" + c1.serviceName + "/conf/";
    var tail := "/work_id.properties";
    var p := CachePath(c1);
    assert p == head + (Text.FormatDecimal(c1.port) + tail);
    assert p == head + (Text.FormatDecimal(c2.port) + tail);
    assert Text.FormatDecimal(c1.port) == p[|head|..|p| - |tail|] == Text.FormatDecimal(c2.port);
    Text.FormatDecimalInjective(c1.port, c2.port);
  }

  /** The two maps init fills from the children: address to number, address to child name. */
  datatype Children = Children(nodeMap: map<string, int>, realNode: map<string, string>)

  /** A key the parsing loop cannot get past: nothing before a `-`, or a second field that is not an int. */
  predicate BadKey(key: string) {
    var parts := Text.Split(key, '-');
    parts == [] || (|parts| > 1 && Text.ParseInt(parts[1]).None?)
  }

  /** One turn of the loop over the children; None is the exception it throws. */
  function AddKey(ch: Children, key: string): (r: Option<Children>)
    ensures r.None? <==> BadKey(key)
  {
    var parts := Text.Split(key, '-');
    if parts == [] then None
    else
      var realNode := ch.realNode[parts[0] := key];
      if |parts| > 1 then
        match Text.ParseInt(parts[1])
        case None => None
        case Some(n) => Some(Children(ch.nodeMap[parts[0] := n], realNode))
      else Some(Children(ch.nodeMap, realNode))
  }

  /** The two maps after the loop over all keys, in order, or None when some key throws. */
  function Index(keys: seq<string>): (r: Option<Children>)
    ensures r.Some? ==> r.value.nodeMap.Keys <= r.value.realNode.Keys
  {
    if keys == [] then Some(Children(map[], map[]))
    else match Index(keys[..|keys| - 1])
      case None => None
      case Some(ch) => AddKey(ch, keys[|keys| - 1])
  }

  /** The parsing fails exactly when one of the keys is bad. */
  lemma {:induction false} IndexDefined(keys: seq<string>)
    ensures Index(keys).Some? <==> forall i :: 0 <= i < |keys| ==> !BadKey(keys[i])
    decreases |keys|
  {
    if keys != [] {
      var init := keys[..|keys| - 1];
      IndexDefined(init);
      assert forall i :: 0 <= i < |init| ==> init[i] == keys[i];
    }
  }

  /** `Integer.parseInt(key.split("-")[1])`, None when there is no second field or it is not an int. */
  function SecondField(key: string): Option<int> {
    var parts := Text.Split(key, '-');
    if |parts| < 2 then None else Text.ParseInt(parts[1])
  }

  /** The key names the address in its first field. */
  predicate Names(key: string, addr: string) {
    var parts := Text.Split(key, '-');
    |parts| > 0 && parts[0] == addr
  }

  /** The key names the address and carries a second field. */
  predicate Numbered(key: string, addr: string) {
    var parts := Text.Split(key, '-');
    |parts| > 1 && parts[0] == addr
  }

  /** One turn of the loop files the key under its first field, in both maps when it is numbered. */
  lemma AddKeyLookup(ch: Children, key: string, addr: string)
    requires AddKey(ch, key).Some?
    ensures var ch' := AddKey(ch, key).value;
            (if Names(key, addr) then addr in ch'.realNode && ch'.realNode[addr] == key
             else (addr in ch'.realNode <==> addr in ch.realNode)
                  && (addr in ch.realNode ==> ch'.realNode[addr] == ch.realNode[addr]))
            && (if Numbered(key, addr) then addr in ch'.nodeMap && SecondField(key) == Some(ch'.nodeMap[addr])
                else (addr in ch'.nodeMap <==> addr in ch.nodeMap)
                     && (addr in ch.nodeMap ==> ch'.nodeMap[addr] == ch.nodeMap[addr]))
  {
  }

  /** realNode holds exactly the addresses that some key names in its first field. */
  lemma {:induction false} IndexHasRealNode(keys: seq<string>, addr: string)
    requires Index(keys).Some?
    ensures addr in Index(keys).value.realNode <==> exists i :: 0 <= i < |keys| && Names(keys[i], addr)
    decreases |keys|
  {
    if keys != [] {
      var n := |keys| - 1;
      var init := keys[..n];
      IndexHasRealNode(init, addr);
      AddKeyLookup(Index(init).value, keys[n], addr);
      assert forall i :: 0 <= i < n ==> init[i] == keys[i];
      if !Names(keys[n], addr) {
        assert (exists i :: 0 <= i < |keys| && Names(keys[i], addr)) ==> exists i :: 0 <= i < n && Names(init[i], addr);
      }
    }
  }

  /** realNode maps an address to the last key that names it. */
  lemma {:induction false} IndexLastRealNode(keys: seq<string>, addr: string)
    requires Index(keys).Some? && addr in Index(keys).value.realNode
    ensures var ch := Index(keys).value;
            exists i :: 0 <= i < |keys| && Names(keys[i], addr) && ch.realNode[addr] == keys[i]
                        && forall j :: i < j < |keys| ==> !Names(keys[j], addr)
    decreases |keys|
  {
    var n := |keys| - 1;
    var init := keys[..n];
    AddKeyLookup(Index(init).value, keys[n], addr);
    if !Names(keys[n], addr) {
      assert init != [];
      IndexLastRealNode(init, addr);
      var prev := Index(init).value;
      var i :| 0 <= i < n && Names(init[i], addr) && prev.realNode[addr] == init[i]
               && forall j :: i < j < n ==> !Names(init[j], addr);
      assert keys[i] == init[i];
      forall j | i < j < |keys|
        ensures !Names(keys[j], addr)
      {
        if j < n {
          assert keys[j] == init[j];
        }
      }
    }
  }

  /** nodeMap holds exactly the addresses that some key names with a second field. */
  lemma {:induction false} IndexHasNodeMap(keys: seq<string>, addr: string)
    requires Index(keys).Some?
    ensures addr in Index(keys).value.nodeMap <==> exists i :: 0 <= i < |keys| && Numbered(keys[i], addr)
    decreases |keys|
  {
    if keys != [] {
      var n := |keys| - 1;
      var init := keys[..n];
      IndexHasNodeMap(init, addr);
      AddKeyLookup(Index(init).value, keys[n], addr);
      assert forall i :: 0 <= i < n ==> init[i] == keys[i];
      if !Numbered(keys[n], addr) {
        assert (exists i :: 0 <= i < |keys| && Numbered(keys[i], addr)) ==> exists i :: 0 <= i < n && Numbered(init[i], addr);
      }
    }
  }

  /** nodeMap maps an address to the number of the last key that names it with a second field. */
  lemma {:induction false} IndexLastNodeMap(keys: seq<string>, addr: string)
    requires Index(keys).Some? && addr in Index(keys).value.nodeMap
    ensures var ch := Index(keys).value;
            exists i :: 0 <= i < |keys| && Numbered(keys[i], addr) && SecondField(keys[i]) == Some(ch.nodeMap[addr])
                        && forall j :: i < j < |keys| ==> !Numbered(keys[j], addr)
    decreases |keys|
  {
    var n := |keys| - 1;
    var init := keys[..n];
    AddKeyLookup(Index(init).value, keys[n], addr);
    if !Numbered(keys[n], addr) {
      assert init != [];
      IndexLastNodeMap(init, addr);
      var prev := Index(init).value;
      var i :| 0 <= i < n && Numbered(init[i], addr) && SecondField(init[i]) == Some(prev.nodeMap[addr])
               && forall j :: i < j < n ==> !Numbered(init[j], addr);
      assert keys[i] == init[i];
      forall j | i < j < |keys|
        ensures !Numbered(keys[j], addr)
      {
        if j < n {
          assert keys[j] == init[j];
        }
      }
    }
  }

  /** The source as written, and the registration as evidently intended. */
  datatype Variant =
    | AsWritten   // PERSISTENT node; worker id from the second `-` field of the full path
    | Corrected   // PERSISTENT_SEQUENTIAL node; worker id from the created child's name

  function ModeOf(v: Variant): CreateMode {
    if v == AsWritten then Persistent else PersistentSequential
  }

  /** The last name of a path: what follows its last `/`. */
  function NodeName(path: string): (name: string)
    ensures '/' !in name
  {
    if path == [] || path[|path| - 1] == '/' then []
    else NodeName(path[..|path| - 1]) + [path[|path| - 1]]
  }

  lemma {:induction false} NodeNameOfChild(parent: string, name: string)
    requires '/' !in name
    ensures NodeName(ChildPath(parent, name)) == name
    decreases |name|
  {
    var path := ChildPath(parent, name);
    if name != [] {
      var init := name[..|name| - 1];
      assert path[..|path| - 1] == ChildPath(parent, init);
      NodeNameOfChild(parent, init);
      assert init + [name[|name| - 1]] == name;
    } else {
      assert path[|path| - 1] == '/';
    }
  }

  /** The worker id a new node yields: the second field of the full path, or of the created child's name. */
  function WorkerIdOf(v: Variant, path: string): Option<int> {
    SecondField(if v == AsWritten then path else NodeName(path))
  }

  /** `buildData()`: the endpoint of this host with the clock reading. */
  function EndpointData(c: Config, now: int): Payload {
    Json(Endpoint(c.ip, c.port, now))
  }

  /** `createNode()`, given the clock reading buildData takes. */
  function CreateNode(v: Variant, c: Config, s: Store, now: int): Call<(string, Store)> {
    Create(s, PersistencePath(c), NodePrefix(c), EndpointData(c, now), ModeOf(v))
  }

  /** The timestamp a node holds, None when getData or the JSON reader throws. */
  function StoredTimestamp(s: Store, node: string): (r: Option<int>)
    ensures r.Some? <==> s.reachable && node in s.nodes && s.nodes[node].Json?
  {
    match GetData(s, node)
    case Thrown => None
    case Done(Unreadable) => None
    case Done(Json(e)) => Some(e.timestamp)
  }

  /**
   * The fields init reads and writes: the store and the disk it talks to, `addressNode`
   * (null at first), `workerId` (0 at first), and the node the heartbeat was scheduled for.
   */
  datatype ZkState = ZkState(store: Store, disk: Disk, addressNode: Option<string>, workerId: int,
                             heartbeat: Option<string>)

  /** Which way the try block of init went. */
  datatype Branch = RootCreated | Reused | Registered

  /** The try block of init: the state it leaves, the clock readings it took, and whether it threw. */
  datatype Attempt = Attempt(branch: Option<Branch>, state: ZkState, consumed: nat, thrown: bool)

  /** The try block of init, up to the point where it returns or throws. */
  function RegisterSpec(v: Variant, c: Config, st: ZkState, readings: seq<int>): (a: Attempt)
    requires |readings| >= 1
    ensures a.consumed <= 1
    ensures a.thrown <==> a.branch.None?
    ensures !a.thrown ==> a.state.addressNode.Some? && a.state.heartbeat == a.state.addressNode
    ensures a.state.store.reachable == st.store.reachable
  {
    match CheckExists(st.store)
    case Thrown => Attempt(None, st, 0, true)
    case Done(false) => NewNode(v, c, st, readings[0], true)
    case Done(true) =>
      match GetChildren(st.store)
      case Thrown => Attempt(None, st, 0, true)
      case Done(keys) =>
        match Index(keys)
        case None => Attempt(None, st, 0, true)
        case Some(ch) =>
          var addr := ListenAddress(c);
          if addr in ch.nodeMap then Reuse(c, st, ChildPath(PersistencePath(c), ch.realNode[addr]), ch.nodeMap[addr], readings[0])
          else NewNode(v, c, st, readings[0], false)
  }

  /**
   * createNode, then, for a missing root, the mount of the current worker id and the
   * heartbeat; for a new address, the worker id from the path, the heartbeat and the mount.
   */
  function NewNode(v: Variant, c: Config, st: ZkState, now: int, root: bool): (a: Attempt)
    ensures a.consumed == 1
    ensures a.thrown <==> a.branch.None?
    ensures !a.thrown ==> a.state.addressNode.Some? && a.state.heartbeat == a.state.addressNode
    ensures a.state.store.reachable == st.store.reachable
  {
    match CreateNode(v, c, st.store, now)
    case Thrown => Attempt(None, st, 1, true)
    case Done((path, s')) =>
      var st1 := st.(store := s', addressNode := Some(path));
      if root then
        var m := Mount(st1.disk, st1.workerId);
        var st2 := st1.(disk := m.disk);
        if m.thrown then Attempt(None, st2, 1, true)
        else Attempt(Some(RootCreated), st2.(heartbeat := Some(path)), 1, false)
      else
        match WorkerIdOf(v, path)
        case None => Attempt(None, st1, 1, true)
        case Some(w) =>
          var m := Mount(st1.disk, w);
          var st2 := st1.(workerId := w, heartbeat := Some(path), disk := m.disk);
          if m.thrown then Attempt(None, st2, 1, true)
          else Attempt(Some(Registered), st2, 1, false)
  }

  /** The known-address branch: take the stored number, check the node's timestamp, schedule, mount. */
  function Reuse(c: Config, st: ZkState, node: string, w: int, now: int): (a: Attempt)
    ensures a.consumed <= 1
    ensures a.state.addressNode == Some(node) && a.state.workerId == w && a.state.store == st.store
    ensures a.thrown <==> a.branch.None?
    ensures !a.thrown <==>
              StoredTimestamp(st.store, node).Some? && StoredTimestamp(st.store, node).value < now
              && (!(st.disk.file.Some? || st.disk.parentExists || st.disk.canMakeParent)
                  || (st.disk.writable && st.disk.failAfter.None?))
  {
    var st1 := st.(addressNode := Some(node), workerId := w);
    match StoredTimestamp(st.store, node)
    case None => Attempt(None, st1, 0, true)
    case Some(t) =>
      if !(t < now) then Attempt(None, st1, 1, true)
      else
        var m := Mount(st1.disk, w);
        var st2 := st1.(heartbeat := Some(node), disk := m.disk);
        Attempt(if m.thrown then None else Some(Reused), st2, 1, m.thrown)
  }

  /** What init does: Returned(b) is `return b`, Raised is an exception that escapes it. */
  datatype Outcome = Returned(ok: bool) | Raised

  datatype InitResult = InitResult(outcome: Outcome, state: ZkState, consumed: nat)

  /** `init()`: the try block, and when it throws, the local cache. */
  function InitSpec(v: Variant, c: Config, st: ZkState, readings: seq<int>): (r: InitResult)
    requires |readings| >= 1
    ensures var a := RegisterSpec(v, c, st, readings);
            r.consumed == a.consumed
            && (r.outcome == Returned(false) <==> a.thrown && a.state.disk.file.None?)
            && (r.outcome == Raised <==> a.thrown && ReadCache(a.state.disk).Unparsable?)
            && (r.outcome == Returned(true) ==>
                  if a.thrown then r.state == a.state.(workerId := ReadCache(a.state.disk).workerId)
                  else r.state == a.state)
            && (r.outcome != Returned(true) ==> r.state == a.state)
  {
    var a := RegisterSpec(v, c, st, readings);
    if !a.thrown then InitResult(Returned(true), a.state, a.consumed)
    else match ReadCache(a.state.disk)
      case Unavailable => InitResult(Returned(false), a.state, a.consumed)
      case Unparsable => InitResult(Raised, a.state, a.consumed)
      case Cached(n) => InitResult(Returned(true), a.state.(workerId := n), a.consumed)
  }

  /**
   * Without the persistence node, init creates the node and keeps the worker id it
   * started with; when nothing throws, that id is what the cache receives.
   */
  lemma RootMissingBranch(v: Variant, c: Config, st: ZkState, readings: seq<int>)
    requires |readings| >= 1 && st.store.reachable && !st.store.rootExists
    ensures var a := RegisterSpec(v, c, st, readings);
            a.state.workerId == st.workerId && a.consumed == 1
            && (!a.thrown ==>
                  a.branch == Some(RootCreated) && a.state.store.rootExists
                  && a.state.addressNode == Some(ChildPath(PersistencePath(c), CreatedName(st.store, NodePrefix(c), ModeOf(v))))
                  && a.state.disk == Mount(st.disk, st.workerId).disk)
  {
  }

  /**
   * A known address takes its worker id from nodeMap and its node from realNode, under
   * the persistence path; the store is left as it was.
   */
  lemma KnownAddressBranch(v: Variant, c: Config, st: ZkState, readings: seq<int>)
    requires |readings| >= 1 && st.store.reachable && st.store.rootExists
    requires Index(st.store.children).Some? && ListenAddress(c) in Index(st.store.children).value.nodeMap
    ensures var ch := Index(st.store.children).value;
            var node := ChildPath(PersistencePath(c), ch.realNode[ListenAddress(c)]);
            var a := RegisterSpec(v, c, st, readings);
            a.state.addressNode == Some(node) && a.state.workerId == ch.nodeMap[ListenAddress(c)]
            && a.state.store == st.store
            && (!a.thrown <==> a.branch == Some(Reused))
            && (!a.thrown ==> StoredTimestamp(st.store, node).value < readings[0])
  {
  }

  /**
   * With the service unreachable, init reads no clock and adopts the id an earlier mount
   * left in the cache file.
   */
  lemma UnreachableUsesCache(v: Variant, c: Config, st: ZkState, readings: seq<int>, d: Disk, w: int)
    requires |readings| >= 1 && !st.store.reachable
    requires Text.INT_MIN <= w <= Text.INT_MAX && CacheWritable(d) && st.disk == Mount(d, w).disk
    ensures var r := InitSpec(v, c, st, readings);
            r.outcome == Returned(true) && r.state.workerId == w && r.consumed == 0
            && r.state.addressNode == st.addressNode && r.state.heartbeat == st.heartbeat
  {
    MountThenRead(d, w);
  }

  /** `syncTimestamp(path)`: the store, lastUpdateTime, and the readings taken (up to three). */
  function Sync(c: Config, s: Store, lastUpdateTime: int, path: string, readings: seq<int>): (r: (Store, int, nat))
    requires |readings| >= 3
    ensures r.2 <= 3
    ensures readings[0] < lastUpdateTime ==> r == (s, lastUpdateTime, 1)
    ensures r.1 != lastUpdateTime ==> r.0 == s.(nodes := s.nodes[path := EndpointData(c, readings[1])]) && r.1 == readings[2]
    ensures readings[0] >= lastUpdateTime && s.reachable && path in s.nodes ==>
              r == (s.(nodes := s.nodes[path := EndpointData(c, readings[1])]), readings[2], 3)
    ensures readings[0] >= lastUpdateTime && !(s.reachable && path in s.nodes) ==> r == (s, lastUpdateTime, 2)
  {
    if readings[0] < lastUpdateTime then (s, lastUpdateTime, 1)
    else match SetData(s, path, EndpointData(c, readings[1]))
      case Thrown => (s, lastUpdateTime, 2)
      case Done(s') => (s', readings[2], 3)
  }

  /**
   * With a clock that does not step back, a heartbeat never lowers lastUpdateTime, and the
   * timestamp it writes is never later than the new lastUpdateTime.
   */
  lemma SyncMonotone(c: Config, s: Store, lastUpdateTime: int, path: string, readings: seq<int>)
    requires |readings| >= 3 && readings[0] <= readings[1] <= readings[2]
    ensures var (s', last', _) := Sync(c, s, lastUpdateTime, path, readings);
            last' >= lastUpdateTime
            && (s' != s ==> path in s'.nodes && s'.nodes[path].Json? && s'.nodes[path].endpoint.timestamp <= last')
  {
  }

  /**
   * A heartbeat that passes the guard on a node it can write refreshes that node: the
   * stored timestamp becomes the reading buildData took, the rest of the store is kept,
   * and a later restart whose clock is past that reading passes the stale check.
   */
  lemma SyncWrites(c: Config, s: Store, lastUpdateTime: int, path: string, readings: seq<int>, later: int)
    requires |readings| >= 3 && readings[0] >= lastUpdateTime && s.reachable && path in s.nodes
    requires later > readings[1]
    ensures var (s', last', consumed) := Sync(c, s, lastUpdateTime, path, readings);
            StoredTimestamp(s', path) == Some(readings[1]) && last' == readings[2] && consumed == 3
            && s'.children == s.children && s'.rootExists == s.rootExists && s'.cversion == s.cversion
            && (forall p :: p in s.nodes && p != path ==> p in s'.nodes && s'.nodes[p] == s.nodes[p])
            && StoredTimestamp(s', path).value < later
  {
  }

  /** A heartbeat whose write fails leaves the store and lastUpdateTime as they were. */
  lemma SyncFailureKeeps(c: Config, s: Store, lastUpdateTime: int, path: string, readings: seq<int>)
    requires |readings| >= 3
    requires !(s.reachable && path in s.nodes)
    ensures var (s', last', _) := Sync(c, s, lastUpdateTime, path, readings);
            s' == s && last' == lastUpdateTime
  {
  }

  /** createNode, the only call of init that changes the store, keeps it valid. */
  lemma NewNodeKeepsStoreValid(v: Variant, c: Config, st: ZkState, now: int, root: bool)
    requires ValidStore(st.store, PersistencePath(c))
    ensures ValidStore(NewNode(v, c, st, now, root).state.store, PersistencePath(c))
  {
    if CreateNode(v, c, st.store, now).Done? {
      CreateKeepsValid(st.store, PersistencePath(c), NodePrefix(c), EndpointData(c, now), ModeOf(v));
    }
  }

  /** init keeps the persistence node's children valid, whichever way it goes. */
  lemma InitKeepsStoreValid(v: Variant, c: Config, st: ZkState, readings: seq<int>)
    requires |readings| >= 1 && ValidStore(st.store, PersistencePath(c))
    ensures ValidStore(InitSpec(v, c, st, readings).state.store, PersistencePath(c))
  {
    NewNodeKeepsStoreValid(v, c, st, readings[0], true);
    NewNodeKeepsStoreValid(v, c, st, readings[0], false);
    assert ValidStore(RegisterSpec(v, c, st, readings).state.store, PersistencePath(c));
  }

  /** A heartbeat keeps the store valid. */
  lemma SyncKeepsStoreValid(c: Config, s: Store, lastUpdateTime: int, path: string, readings: seq<int>)
    requires |readings| >= 3 && ValidStore(s, PersistencePath(c))
    ensures ValidStore(Sync(c, s, lastUpdateTime, path, readings).0, PersistencePath(c))
  {
    if readings[0] >= lastUpdateTime && SetData(s, path, EndpointData(c, readings[1])).Done? {
      SetDataKeepsValid(s, PersistencePath(c), path, EndpointData(c, readings[1]));
    }
  }

  /** The Zookeeper object: the configuration is fixed, init and the heartbeat update the rest. */
  class Zookeeper {
    const config: Config
    const variant: Variant
    const clock: AbsGenerator.Clock
    var store: Store
    var disk: Disk
    var addressNode: Option<string>
    var workerId: int
    var lastUpdateTime: int
    var heartbeat: Option<string>

    function State(): ZkState
      reads this
    {
      ZkState(store, disk, addressNode, workerId, heartbeat)
    }

    /** `new Zookeeper(properties, ip)`: no node yet, worker id 0, never synced. */
    constructor (config: Config, variant: Variant, clock: AbsGenerator.Clock, store: Store, disk: Disk)
      ensures this.config == config && this.variant == variant && this.clock == clock
      ensures State() == ZkState(store, disk, None, 0, None) && lastUpdateTime == 0
    {
      this.config := config;
      this.variant := variant;
      this.clock := clock;
      this.store := store;
      this.disk := disk;
      addressNode := None;
      workerId := 0;
      lastUpdateTime := 0;
      heartbeat := None;
    }

    /** `init()`. It reads the clock at most once. */
    method Init() returns (outcome: Outcome)
      requires |clock.readings| >= 1
      modifies this, clock
      ensures var r := InitSpec(variant, config, old(State()), old(clock.readings));
              outcome == r.outcome && State() == r.state && clock.readings == old(clock.readings)[r.consumed..]
      ensures lastUpdateTime == old(lastUpdateTime)
    {
      var thrown := Register();
      outcome := Returned(true);
      if thrown {
        match ReadCache(disk)
        case Unavailable => outcome := Returned(false);
        case Unparsable => outcome := Raised;
        case Cached(n) => workerId := n;
      }
    }

    /** The try block of init. */
    method Register() returns (thrown: bool)
      requires |clock.readings| >= 1
      modifies this`store, this`disk, this`addressNode, this`workerId, this`heartbeat, clock
      ensures var a := RegisterSpec(variant, config, old(State()), old(clock.readings));
              thrown == a.thrown && State() == a.state && clock.readings == old(clock.readings)[a.consumed..]
    {
      match CheckExists(store)
      case Thrown =>
        thrown := true;
      case Done(false) =>
        thrown := RegisterNewNode(true);
      case Done(true) =>
        match GetChildren(store)
        case Thrown =>
          thrown := true;
        case Done(keys) =>
          var children := ParseChildren(keys);
          if children.None? {
            thrown := true;
          } else {
            var addr := ListenAddress(config);
            var ch := children.value;
            if addr in ch.nodeMap {
              thrown := RegisterReuse(ChildPath(PersistencePath(config), ch.realNode[addr]), ch.nodeMap[addr]);
            } else {
              thrown := RegisterNewNode(false);
            }
          }
    }

    /** The branches that create a node: the missing root, and the new address. */
    method RegisterNewNode(root: bool) returns (thrown: bool)
      requires |clock.readings| >= 1
      modifies this`store, this`disk, this`addressNode, this`workerId, this`heartbeat, clock
      ensures var a := NewNode(variant, config, old(State()), old(clock.readings)[0], root);
              thrown == a.thrown && State() == a.state && clock.readings == old(clock.readings)[1..]
    {
      var path := CreateNodeCall();
      if path.None? {
        return true;
      }
      addressNode := path;
      if root {
        thrown := MountLocalWorkerId(workerId);
        if !thrown {
          ScheduledPersistenceNode(path.value);
        }
      } else {
        var w := WorkerIdOf(variant, path.value);
        if w.None? {
          return true;
        }
        workerId := w.value;
        ScheduledPersistenceNode(path.value);
        thrown := MountLocalWorkerId(workerId);
      }
    }

    /** The known-address branch. */
    method RegisterReuse(node: string, w: int) returns (thrown: bool)
      requires |clock.readings| >= 1
      modifies this`disk, this`addressNode, this`workerId, this`heartbeat, clock
      ensures var a := Reuse(config, old(State()), node, w, old(clock.readings)[0]);
              thrown == a.thrown && State() == a.state && clock.readings == old(clock.readings)[a.consumed..]
    {
      addressNode := Some(node);
      workerId := w;
      var checked := CheckInitTimestamp(node);
      if checked != Done(true) {
        return true;
      }
      ScheduledPersistenceNode(node);
      thrown := MountLocalWorkerId(w);
    }

    /** The loop over the children that fills nodeMap and realNode. */
    method ParseChildren(keys: seq<string>) returns (r: Option<Children>)
      ensures r == Index(keys)
    {
      var nodeMap: map<string, int> := map[];
      var realNode: map<string, string> := map[];
      var i := 0;
      while i < |keys|
        invariant 0 <= i <= |keys|
        invariant Index(keys[..i]) == Some(Children(nodeMap, realNode))
      {
        assert keys[..i + 1][..i] == keys[..i];
        var key := keys[i];
        var nodeKey := Text.Split(key, '-');
        if |nodeKey| == 0 {
          IndexFailureStays(keys, i + 1);
          return None;
        }
        realNode := realNode[nodeKey[0] := key];
        if |nodeKey| > 1 {
          var n := Text.ParseInt(nodeKey[1]);
          if n.None? {
            IndexFailureStays(keys, i + 1);
            return None;
          }
          nodeMap := nodeMap[nodeKey[0] := n.value];
        }
        i := i + 1;
      }
      assert keys[..i] == keys;
      r := Some(Children(nodeMap, realNode));
    }

    /** `createNode()`: buildData reads the clock, then the node is created; None is the exception. */
    method CreateNodeCall() returns (path: Option<string>)
      requires |clock.readings| >= 1
      modifies this`store, clock
      ensures var r := CreateNode(variant, config, old(store), old(clock.readings)[0]);
              (path.Some? <==> r.Done?)
              && (if r.Done? then path.value == r.value.0 && store == r.value.1 else store == old(store))
      ensures clock.readings == old(clock.readings)[1..]
    {
      var now := clock.CurrentTmp();
      var r := CreateNode(variant, config, store, now);
      if r.Done? {
        path := Some(r.value.0);
        store := r.value.1;
      } else {
        path := None;
      }
    }

    /** `checkInitTimestamp(node)`: Thrown when the node cannot be read, else whether its timestamp is before now. */
    method CheckInitTimestamp(node: string) returns (r: Call<bool>)
      requires |clock.readings| >= 1
      modifies clock
      ensures match StoredTimestamp(store, node)
              case None => r == Thrown && clock.readings == old(clock.readings)
              case Some(t) => r == Done(t < old(clock.readings)[0]) && clock.readings == old(clock.readings)[1..]
    {
      match StoredTimestamp(store, node)
      case None =>
        r := Thrown;
      case Some(t) =>
        var now := clock.CurrentTmp();
        r := Done(t < now);
    }

    /** `scheduledPersistenceNode(node)`: records which node the heartbeat keeps up to date. */
    method ScheduledPersistenceNode(node: string)
      modifies this`heartbeat
      ensures heartbeat == Some(node)
    {
      heartbeat := Some(node);
    }

    /** `mountLocalWordId(w)`: overwrites the cache file; thrown is the RuntimeException. */
    method MountLocalWorkerId(w: int) returns (thrown: bool)
      modifies this`disk
      ensures var m := Mount(old(disk), w);
              disk == m.disk && thrown == m.thrown
    {
      var m := Mount(disk, w);
      disk := m.disk;
      thrown := m.thrown;
    }

    /** `syncTimestamp(path)`: the body the heartbeat runs every three seconds. */
    method SyncTimestamp(path: string)
      requires |clock.readings| >= 3
      modifies this`store, this`lastUpdateTime, clock
      ensures var (s', last', consumed) := Sync(config, old(store), old(lastUpdateTime), path, old(clock.readings));
              store == s' && lastUpdateTime == last' && clock.readings == old(clock.readings)[consumed..]
    {
      var now := clock.CurrentTmp();
      if now >= lastUpdateTime {
        var data := clock.CurrentTmp();
        match SetData(store, path, EndpointData(config, data))
        case Thrown =>
        case Done(s') =>
          store := s';
          lastUpdateTime := clock.CurrentTmp();
      }
    }
  }

  /** Once a key throws, the loop over any longer list throws too. */
  lemma {:induction false} IndexFailureStays(keys: seq<string>, n: nat)
    requires n <= |keys| && Index(keys[..n]).None?
    ensures Index(keys).None?
    decreases |keys| - n
  {
    if n < |keys| {
      assert keys[..n + 1][..n] == keys[..n];
      IndexFailureStays(keys, n + 1);
    } else {
      assert keys[..n] == keys;
    }
  }
}
