/**
 * The part of the coordination service the worker-id registration talks to: one parent
 * node (PERSISTENCE_PATH) and its children, each holding a JSON-encoded endpoint. The
 * client library is replaced by functions on a Store value; a failed call (lost
 * connection, a node that exists already, a node that does not) is `Thrown`.
 */
module Coordination {
  import opened Wrappers
  import Text

  /** `Zookeeper.Endpoint`: the record serialised into every node. */
  datatype Endpoint = Endpoint(ip: string, port: int, timestamp: int)

  /** A node's data: an endpoint, or bytes the JSON reader rejects. */
  datatype Payload = Json(endpoint: Endpoint) | Unreadable

  /** `CreateMode.PERSISTENT` and `CreateMode.PERSISTENT_SEQUENTIAL`. */
  datatype CreateMode = Persistent | PersistentSequential

  /**
   * The service as the registration sees it: whether it answers, whether the parent
   * node exists, the parent's children in the order `getChildren` lists them, the data
   * of every node by full path, and the parent's counter for sequential names.
   */
  datatype Store = Store(reachable: bool, rootExists: bool, children: seq<string>,
                         nodes: map<string, Payload>, cversion: nat)

  /** The outcome of one call: a value, or the exception it throws. */
  datatype Call<T> = Done(value: T) | Thrown

  /** The full path of a child of the parent. */
  function ChildPath(parent: string, name: string): string {
    parent + "/" + name
  }

  /** Different children of one parent have different paths. */
  lemma ChildPathInjective(parent: string, a: string, b: string)
    requires ChildPath(parent, a) == ChildPath(parent, b)
    ensures a == b
  {
    var p := ChildPath(parent, a);
    assert p == (parent + "/") + a && p == (parent + "/") + b;
    assert a == p[|parent| + 1..] == b;
  }

  /** `%010d`: ten digits with leading zeros, or all the digits of a larger counter. */
  function Pad10(k: nat): (s: string)
    ensures Text.AllDigits(s) && |s| >= 10
  {
    var digits := Text.NatDigits(k);
    if |digits| < 10 then Text.Zeros(10 - |digits|) + digits else digits
  }

  /** The sequence suffix reads back, with `Integer.parseInt`, as the counter it was made from. */
  lemma Pad10Value(k: nat)
    requires k <= Text.INT_MAX
    ensures Text.ParseInt(Pad10(k)) == Some(k)
    ensures '-' !in Pad10(k)
  {
    var digits := Text.NatDigits(k);
    Text.NatDigitsValue(k);
    if |digits| < 10 {
      Text.LeadingZerosValue(10 - |digits|, digits);
    }
    assert !Text.IsDigit('-');
  }

  /** `checkExists().forPath(parent)`: whether the parent exists. */
  function CheckExists(s: Store): (r: Call<bool>)
    ensures r.Done? <==> s.reachable
    ensures r.Done? ==> r.value == s.rootExists
  {
    if s.reachable then Done(s.rootExists) else Thrown
  }

  /** `getChildren().forPath(parent)` */
  function GetChildren(s: Store): (r: Call<seq<string>>)
    ensures r.Done? <==> s.reachable && s.rootExists
    ensures r.Done? ==> r.value == s.children
  {
    if s.reachable && s.rootExists then Done(s.children) else Thrown
  }

  /** `getData().forPath(path)` */
  function GetData(s: Store, path: string): (r: Call<Payload>)
    ensures r.Done? <==> s.reachable && path in s.nodes
    ensures r.Done? ==> r.value == s.nodes[path]
  {
    if s.reachable && path in s.nodes then Done(s.nodes[path]) else Thrown
  }

  /** The name a create call gives the child: as asked, or with the counter appended. */
  function CreatedName(s: Store, name: string, mode: CreateMode): string {
    if mode == Persistent then name else name + Pad10(s.cversion)
  }

  /**
   * `create().creatingParentsIfNeeded().withMode(mode).forPath(parent + "/" + name, data)`:
   * the full path created and the new store. It throws when the service does not answer
   * or the node exists already.
   */
  function Create(s: Store, parent: string, name: string, data: Payload, mode: CreateMode): (r: Call<(string, Store)>)
    ensures r.Done? <==> s.reachable && ChildPath(parent, CreatedName(s, name, mode)) !in s.nodes
    ensures r.Done? ==>
              var created := CreatedName(s, name, mode);
              var (path, s') := r.value;
              path == ChildPath(parent, created)
              && s'.nodes == s.nodes[path := data] && s'.children == s.children + [created]
              && s'.rootExists && s'.reachable && s'.cversion == s.cversion + 1
  {
    var created := CreatedName(s, name, mode);
    var path := ChildPath(parent, created);
    if !s.reachable || path in s.nodes then Thrown
    else Done((path, s.(rootExists := true, children := s.children + [created],
                        nodes := s.nodes[path := data], cversion := s.cversion + 1)))
  }

  /** `setData().forPath(path, data)`: replaces the data of an existing node. */
  function SetData(s: Store, path: string, data: Payload): (r: Call<Store>)
    ensures r.Done? <==> s.reachable && path in s.nodes
    ensures r.Done? ==> r.value == s.(nodes := s.nodes[path := data])
  {
    if s.reachable && path in s.nodes then Done(s.(nodes := s.nodes[path := data])) else Thrown
  }

  /**
   * The stores the registration can meet under one parent: without the parent there are
   * no children and the counter has not moved; every listed child has a node, no child
   * is listed twice, and the counter is at least the number of children created.
   */
  predicate ValidStore(s: Store, parent: string) {
    (!s.rootExists ==> s.children == [] && s.cversion == 0)
    && |s.children| <= s.cversion
    && (forall i :: 0 <= i < |s.children| ==> ChildPath(parent, s.children[i]) in s.nodes)
    && (forall i, j :: 0 <= i < j < |s.children| ==> s.children[i] != s.children[j])
  }

  /** A create under the parent keeps the store valid: the new child is listed once, with its node. */
  lemma CreateKeepsValid(s: Store, parent: string, name: string, data: Payload, mode: CreateMode)
    requires ValidStore(s, parent) && Create(s, parent, name, data, mode).Done?
    ensures ValidStore(Create(s, parent, name, data, mode).value.1, parent)
  {
    var created := CreatedName(s, name, mode);
    var s' := Create(s, parent, name, data, mode).value.1;
    forall i | 0 <= i < |s.children|
      ensures s.children[i] != created
    {
      assert ChildPath(parent, s.children[i]) in s.nodes;
    }
    assert s'.children[|s.children|] == created;
  }

  /** A write of any node keeps the store valid: it changes no child and no counter, and removes no node. */
  lemma SetDataKeepsValid(s: Store, parent: string, path: string, data: Payload)
    requires ValidStore(s, parent) && SetData(s, path, data).Done?
    ensures ValidStore(SetData(s, path, data).value, parent)
  {
  }

  /** After a sequential create, the same request names a different child: the counter only grows. */
  lemma SequentialNamesDiffer(s: Store, parent: string, name: string, data: Payload)
    requires Create(s, parent, name, data, PersistentSequential).Done?
    ensures var s' := Create(s, parent, name, data, PersistentSequential).value.1;
            CreatedName(s', name, PersistentSequential) != CreatedName(s, name, PersistentSequential)
  {
    var s' := Create(s, parent, name, data, PersistentSequential).value.1;
    var a, b := name + Pad10(s'.cversion), name + Pad10(s.cversion);
    assert a[|name|..] == Pad10(s'.cversion);
    assert b[|name|..] == Pad10(s.cversion);
    Pad10Digits(s.cversion);
    Pad10Digits(s'.cversion);
  }

  /** The digits of Pad10(k) spell k. */
  lemma Pad10Digits(k: nat)
    ensures Text.DigitsValue(Pad10(k)) == k
  {
    var digits := Text.NatDigits(k);
    Text.NatDigitsValue(k);
    if |digits| < 10 {
      Text.LeadingZerosValue(10 - |digits|, digits);
    }
  }
}
