/** The registry of satellite nodes and their aliases (src/coordinator/node_registry.cpp), and
    how the coordinator fills and empties it (src/coordinator/coordinator.cpp). */
module NodeRegistries {
  import opened Wrappers
  import opened Text

  /** `NodeInfo`; its status and heartbeat fields are constants after registration. */
  datatype NodeInfo = NodeInfo(nodeId: string, satelliteId: string, name: string, kind: string, registered: int)

  /** `NodeRegisterMessage`, with the fields the registry reads. */
  datatype Registration = Registration(nodeId: string, name: string, kind: string, metadata: map<string, string>)

  /** A value of the registry. */
  datatype Registry = Registry(initialized: bool, nodes: map<string, NodeInfo>, aliases: map<string, string>)

  const Fresh := Registry(false, map[], map[])

  function Metadata(m: Registration, key: string): string {
    if key in m.metadata && m.metadata[key] != "" then m.metadata[key] else m.nodeId
  }

  /** The communication id and the satellite id of a message, each standing in for the other
      when it is empty. */
  function Ids(m: Registration): (string, string) {
    var comm, sat := Metadata(m, "node_id"), Metadata(m, "satellite_id");
    (if comm == "" then sat else comm, if sat == "" then comm else sat)
  }

  predicate Accepts(r: Registry, m: Registration) {
    r.initialized && Ids(m).0 != ""
  }

  function Resolve(r: Registry, id: string): string {
    if id in r.aliases then r.aliases[id] else id
  }

  function WithoutAliases(aliases: map<string, string>, id: string): map<string, string> {
    map a | a in aliases && aliases[a] != id :: aliases[a]
  }

  function Removed(r: Registry, id: string): Registry {
    r.(nodes := r.nodes - {id}, aliases := WithoutAliases(r.aliases, id))
  }

  /** The node another registration of this satellite leaves behind is dropped. */
  function Evicted(r: Registry, comm: string, sat: string): Registry {
    if sat in r.aliases && r.aliases[sat] != comm then Removed(r, r.aliases[sat]) else r
  }

  function Enter(r: Registry, info: NodeInfo, extra: string): Registry {
    var id := info.nodeId;
    var aliases := WithoutAliases(r.aliases, id)[id := id][info.satelliteId := id];
    r.(nodes := r.nodes[id := info], aliases := if extra == "" then aliases else aliases[extra := id])
  }

  function Registered(r: Registry, m: Registration, now: int): Registry {
    var (comm, sat) := Ids(m);
    if !Accepts(r, m) then r
    else Enter(Evicted(r, comm, sat), NodeInfo(comm, sat, m.name, m.kind, now), m.nodeId)
  }

  function Unregistered(r: Registry, id: string): Registry {
    var target := Resolve(r, id);
    if target in r.nodes then Removed(r, target) else r
  }

  // ----- invariants -----

  predicate Live(r: Registry, alias: string) {
    alias in r.aliases ==> r.aliases[alias] in r.nodes
  }

  /** No alias dangles. */
  predicate AliasesLive(r: Registry) {
    forall a {:trigger Live(r, a)} :: a in r.aliases ==> Live(r, a)
  }

  /** A live node is stored under its own id, and found by it and by its satellite's id. */
  predicate Settled(r: Registry, n: string) {
    n in r.nodes && r.nodes[n].nodeId == n &&
    n in r.aliases && r.aliases[n] == n &&
    r.nodes[n].satelliteId in r.aliases && r.aliases[r.nodes[n].satelliteId] == n
  }

  predicate Consistent(r: Registry) {
    AliasesLive(r) && forall n {:trigger Settled(r, n)} :: n in r.nodes ==> Settled(r, n)
  }

  lemma RemovedKeepsLive(r: Registry, id: string)
    requires AliasesLive(r)
    ensures AliasesLive(Removed(r, id))
  {
    forall a | a in Removed(r, id).aliases ensures Live(Removed(r, id), a) {
      assert Live(r, a);
    }
  }

  lemma RemovedKeepsConsistent(r: Registry, id: string)
    requires Consistent(r)
    ensures Consistent(Removed(r, id))
  {
    RemovedKeepsLive(r, id);
    forall n | n in Removed(r, id).nodes ensures Settled(Removed(r, id), n) {
      assert Settled(r, n);
    }
  }

  lemma EvictedKeepsConsistent(r: Registry, comm: string, sat: string)
    requires Consistent(r)
    ensures Consistent(Evicted(r, comm, sat))
  {
    if sat in r.aliases {
      RemovedKeepsConsistent(r, r.aliases[sat]);
    }
  }

  lemma EnterKeepsLive(r: Registry, info: NodeInfo, extra: string)
    requires AliasesLive(r)
    ensures AliasesLive(Enter(r, info, extra))
  {
    var next := Enter(r, info, extra);
    forall a | a in next.aliases ensures Live(next, a) {
      assert Live(r, a);
    }
  }

  lemma UnregisteredKeepsConsistent(r: Registry, id: string)
    requires Consistent(r)
    ensures Consistent(Unregistered(r, id))
  {
    RemovedKeepsConsistent(r, Resolve(r, id));
  }

  lemma RegisteredKeepsLive(r: Registry, m: Registration, now: int)
    requires AliasesLive(r)
    ensures AliasesLive(Registered(r, m, now))
  {
    if Accepts(r, m) {
      var (comm, sat) := Ids(m);
      if sat in r.aliases {
        RemovedKeepsLive(r, r.aliases[sat]);
      }
      EnterKeepsLive(Evicted(r, comm, sat), NodeInfo(comm, sat, m.name, m.kind, now), m.nodeId);
    }
  }

  /** The new node takes none of the ids under which another node is found. */
  predicate Spares(r: Registry, comm: string, extra: string, n: string)
    requires n in r.nodes
  {
    n == comm ||
    (r.nodes[n].satelliteId != comm && (extra == "" || (extra != n && extra != r.nodes[n].satelliteId)))
  }

  /** What a registration must not do to a node it does not evict: take that node's satellite id
      as its communication id, or carry that node's id or satellite id in its `node_id` field. */
  predicate Undisturbed(r: Registry, m: Registration) {
    var (comm, sat) := Ids(m);
    forall n <- r.nodes :: n == Resolve(r, sat) || Spares(r, comm, m.nodeId, n)
  }

  lemma EnterMoves(r: Registry, info: NodeInfo, extra: string, n: string)
    requires Settled(r, n) && n != info.nodeId
    requires info.satelliteId in r.aliases ==> r.aliases[info.satelliteId] == info.nodeId
    ensures Settled(Enter(r, info, extra), n) <==> Spares(r, info.nodeId, extra, n)
  {
  }

  lemma EnterSettles(r: Registry, info: NodeInfo, extra: string)
    ensures Settled(Enter(r, info, extra), info.nodeId)
  {
  }

  lemma SurvivorIff(r: Registry, comm: string, sat: string, n: string)
    requires Consistent(r) && n in r.nodes
    ensures n in Evicted(r, comm, sat).nodes <==> n == comm || n != Resolve(r, sat)
    ensures n in Evicted(r, comm, sat).nodes ==> Evicted(r, comm, sat).nodes[n] == r.nodes[n]
  {
    assert Settled(r, n);
  }

  /** A registration keeps the registry consistent exactly when it leaves the others alone. */
  lemma RegisteredKeepsConsistent(r: Registry, m: Registration, now: int)
    requires Consistent(r) && Accepts(r, m)
    ensures Consistent(Registered(r, m, now)) <==> Undisturbed(r, m)
  {
    var (comm, sat) := Ids(m);
    var middle := Evicted(r, comm, sat);
    var info := NodeInfo(comm, sat, m.name, m.kind, now);
    var next := Registered(r, m, now);
    EvictedKeepsConsistent(r, comm, sat);
    RegisteredKeepsLive(r, m, now);
    EnterSettles(middle, info, m.nodeId);
    forall n | n in middle.nodes && n != comm
      ensures Settled(next, n) <==> Spares(middle, comm, m.nodeId, n)
    {
      assert Settled(middle, n);
      EnterMoves(middle, info, m.nodeId, n);
    }
    if Consistent(next) {
      forall n | n in r.nodes ensures n == Resolve(r, sat) || Spares(r, comm, m.nodeId, n) {
        SurvivorIff(r, comm, sat, n);
        assert n in middle.nodes && n != comm ==> Settled(next, n);
      }
    }
    if Undisturbed(r, m) {
      forall n | n in next.nodes ensures Settled(next, n) {
        if n != comm {
          SurvivorIff(r, comm, sat, n);
        }
      }
    }
  }

  /** A satellite has at most one node. */
  lemma OneNodePerSatellite(r: Registry, m: string, n: string)
    requires Consistent(r) && m in r.nodes && n in r.nodes && r.nodes[m].satelliteId == r.nodes[n].satelliteId
    ensures m == n
  {
    assert Settled(r, m) && Settled(r, n);
  }

  // ----- the effect of one call -----

  function FirstNonempty(texts: seq<string>): string {
    if texts == [] then "" else if texts[0] != "" then texts[0] else FirstNonempty(texts[1..])
  }

  lemma FirstOfThree(a: string, b: string, c: string)
    ensures FirstNonempty([a, b, c]) == if a != "" then a else if b != "" then b else c
  {
    assert [a, b, c][1..] == [b, c] && [b, c][1..] == [c] && [c][1..] == [];
    assert FirstNonempty([c]) == c;
    assert FirstNonempty([b, c]) == if b != "" then b else c;
  }

  function MetadataText(m: Registration, key: string): string {
    if key in m.metadata then m.metadata[key] else ""
  }

  /** The communication id is the message's `node_id`, its own id or its `satellite_id`, the satellite
      id the same in the opposite order, whichever is the first that is not empty. */
  lemma IdsMean(m: Registration)
    ensures var node, sat := MetadataText(m, "node_id"), MetadataText(m, "satellite_id");
      Ids(m) == (FirstNonempty([node, m.nodeId, sat]), FirstNonempty([sat, m.nodeId, node]))
  {
    var node, sat := MetadataText(m, "node_id"), MetadataText(m, "satellite_id");
    FirstOfThree(node, m.nodeId, sat);
    FirstOfThree(sat, m.nodeId, node);
  }

  /** A registration is refused by a closed registry and without any id; nothing changes then. */
  lemma RefusedMeans(r: Registry, m: Registration, now: int)
    ensures Accepts(r, m) <==>
            r.initialized &&
            (m.nodeId != "" || MetadataText(m, "node_id") != "" || MetadataText(m, "satellite_id") != "")
    ensures !Accepts(r, m) ==> Registered(r, m, now) == r
  {
    IdsMean(m);
  }

  /** The node that a registration replaces: the satellite's, if it has another id. */
  predicate Replaced(r: Registry, comm: string, sat: string, n: string) {
    sat in r.aliases && r.aliases[sat] == n && n != comm
  }

  /** An accepted registration: one node, with the message's data, under the communication id; the
      satellite's old node is gone; the ids that lead to the new node are exactly its two and the
      message's own, and all others lead where they led, unless that node was replaced or renewed. */
  lemma RegisteredMeans(r: Registry, m: Registration, now: int, n: string, a: string)
    requires Accepts(r, m)
    ensures var (comm, sat) := Ids(m);
      var next := Registered(r, m, now);
      && next.initialized == r.initialized
      && comm in next.nodes && next.nodes[comm] == NodeInfo(comm, sat, m.name, m.kind, now)
      && (n != comm ==> (n in next.nodes <==> n in r.nodes && !Replaced(r, comm, sat, n)))
      && (n != comm && n in next.nodes ==> next.nodes[n] == r.nodes[n])
      && (a == comm || a == sat || (a == m.nodeId && a != "") ==> a in next.aliases && next.aliases[a] == comm)
      && (a != comm && a != sat && (a != m.nodeId || a == "") ==>
            && (a in next.aliases <==>
                  a in r.aliases && r.aliases[a] != comm && !Replaced(r, comm, sat, r.aliases[a]))
            && (a in next.aliases ==> next.aliases[a] == r.aliases[a]))
  {
  }

  /** Unregistering an id removes the node it leads to and exactly the ids that lead to that node. */
  lemma UnregisteredMeans(r: Registry, id: string, n: string, a: string)
    ensures var target := if id in r.aliases then r.aliases[id] else id;
      var next := Unregistered(r, id);
      && next.initialized == r.initialized
      && (n in next.nodes <==> n in r.nodes && n != target) && (n in next.nodes ==> next.nodes[n] == r.nodes[n])
      && (a in next.aliases <==> a in r.aliases && (r.aliases[a] != target || target !in r.nodes))
      && (a in next.aliases ==> next.aliases[a] == r.aliases[a])
  {
  }

  // ----- histories -----

  datatype Call = Initialize | Shutdown | Register(m: Registration, now: int) | Unregister(id: string)

  function After(r: Registry, c: Call): Registry {
    match c
    case Initialize => r.(initialized := true)
    case Shutdown => if r.initialized then Fresh else r
    case Register(m, now) => Registered(r, m, now)
    case Unregister(id) => Unregistered(r, id)
  }

  function Replay(calls: seq<Call>): Registry {
    if calls == [] then Fresh else After(Replay(calls[..|calls| - 1]), calls[|calls| - 1])
  }

  /** Over every history all aliases point to live nodes. */
  lemma {:induction false} AliasesAlwaysLive(calls: seq<Call>)
    ensures AliasesLive(Replay(calls))
  {
    if calls != [] {
      var r := Replay(calls[..|calls| - 1]);
      AliasesAlwaysLive(calls[..|calls| - 1]);
      match calls[|calls| - 1]
      case Initialize =>
        forall a | a in r.aliases ensures Live(r.(initialized := true), a) {
          assert Live(r, a);
        }
      case Shutdown =>
      case Register(m, now) => RegisteredKeepsLive(r, m, now);
      case Unregister(id) => RemovedKeepsLive(r, Resolve(r, id));
    }
  }

  /** A registry that is not open is empty, so closing it twice is closing it once. */
  lemma {:induction false} ClosedIsEmpty(calls: seq<Call>)
    ensures !Replay(calls).initialized ==> Replay(calls) == Registry(false, map[], map[])
  {
    if calls != [] {
      ClosedIsEmpty(calls[..|calls| - 1]);
    }
  }

  /** How the coordinator registers: the message's `node_id` is the communication id, and no
      communication id is the satellite id of another node. */
  ghost predicate Disciplined(calls: seq<Call>) {
    && (forall i :: 0 <= i < |calls| && calls[i].Register? ==>
          calls[i].m.nodeId == "" || calls[i].m.nodeId == Ids(calls[i].m).0)
    && (forall i, j | 0 <= i < |calls| && 0 <= j < |calls| && calls[i].Register? && calls[j].Register? ::
          Ids(calls[i].m).0 == Ids(calls[j].m).1 ==> Ids(calls[i].m).0 == Ids(calls[j].m).0)
  }

  /** Some call registered this pair of ids. */
  ghost predicate Named(calls: seq<Call>, comm: string, sat: string) {
    exists i :: 0 <= i < |calls| && calls[i].Register? && Ids(calls[i].m) == (comm, sat)
  }

  lemma NamedLater(calls: seq<Call>, comm: string, sat: string)
    requires calls != [] && Named(calls[..|calls| - 1], comm, sat)
    ensures Named(calls, comm, sat)
  {
    var i :| 0 <= i < |calls| - 1 && calls[..|calls| - 1][i].Register? && Ids(calls[..|calls| - 1][i].m) == (comm, sat);
    assert calls[i].Register? && Ids(calls[i].m) == (comm, sat);
  }

  /** Nodes come only from registrations. */
  lemma {:induction false} NodesWereNamed(calls: seq<Call>, n: string)
    requires n in Replay(calls).nodes
    ensures Named(calls, n, Replay(calls).nodes[n].satelliteId)
  {
    var before, c := calls[..|calls| - 1], calls[|calls| - 1];
    var r, sat := Replay(before), Replay(calls).nodes[n].satelliteId;
    if c.Register? && Accepts(r, c.m) && n == Ids(c.m).0 {
      assert Ids(calls[|calls| - 1].m) == (n, sat);
    } else {
      assert n in r.nodes && r.nodes[n].satelliteId == sat;
      NodesWereNamed(before, n);
      NamedLater(calls, n, sat);
    }
  }

  lemma DisciplineUndisturbed(calls: seq<Call>, r: Registry, m: Registration, now: int)
    requires calls != [] && calls[|calls| - 1] == Register(m, now) && Disciplined(calls)
    requires r == Replay(calls[..|calls| - 1])
    ensures Undisturbed(r, m)
  {
    forall n | n in r.nodes ensures Spares(r, Ids(m).0, m.nodeId, n) {
      NodesWereNamed(calls[..|calls| - 1], n);
      NamedLater(calls, n, r.nodes[n].satelliteId);
      var i :| 0 <= i < |calls| && calls[i].Register? && Ids(calls[i].m) == (n, r.nodes[n].satelliteId);
      assert calls[|calls| - 1].Register?;
    }
  }

  lemma DisciplinedBefore(calls: seq<Call>)
    requires calls != [] && Disciplined(calls)
    ensures Disciplined(calls[..|calls| - 1])
  {
    var before := calls[..|calls| - 1];
    assert forall i :: 0 <= i < |before| ==> before[i] == calls[i];
  }

  /** Over every disciplined history each live node resolves to itself and each satellite id
      to its one node. */
  lemma {:induction false} DisciplinedIsConsistent(calls: seq<Call>)
    requires Disciplined(calls)
    ensures Consistent(Replay(calls))
  {
    if calls != [] {
      var r, c := Replay(calls[..|calls| - 1]), calls[|calls| - 1];
      DisciplinedBefore(calls);
      DisciplinedIsConsistent(calls[..|calls| - 1]);
      match c
      case Initialize =>
        AliasesAlwaysLive(calls);
        forall n | n in r.nodes ensures Settled(r.(initialized := true), n) {
          assert Settled(r, n);
        }
      case Shutdown =>
      case Register(m, now) =>
        if Accepts(r, m) {
          DisciplineUndisturbed(calls, r, m, now);
          RegisteredKeepsConsistent(r, m, now);
        }
      case Unregister(id) => UnregisteredKeepsConsistent(r, id);
    }
  }

  // ----- what happens without the discipline -----

  function RegistrationWith(nodeId: string, comm: string, sat: string): Registration {
    Registration(nodeId, "", "", map["node_id" := comm, "satellite_id" := sat])
  }

  lemma RegistrationWithIds(nodeId: string, comm: string, sat: string)
    requires comm != "" && sat != ""
    ensures Ids(RegistrationWith(nodeId, comm, sat)) == (comm, sat)
  {
    assert "node_id"[0] != "satellite_id"[0];
  }

  /** A communication id that is another node's satellite id leads to two nodes for one satellite. */
  lemma BorrowedSatelliteIdDoubles(a: string, sat: string, satT: string, c: string)
    requires "" !in {a, sat, satT, c}
    requires a != sat && a != satT && a != c && sat != satT && sat != c && satT != c
    ensures var r := After(After(After(After(Fresh, Initialize), Register(RegistrationWith(a, a, sat), 0)),
                                 Register(RegistrationWith(sat, sat, satT), 0)), Register(RegistrationWith(c, c, sat),
                                                                                          0));
      a in r.nodes && c in r.nodes && r.nodes[a].satelliteId == r.nodes[c].satelliteId == sat
  {
    RegistrationWithIds(a, a, sat);
    RegistrationWithIds(sat, sat, satT);
    RegistrationWithIds(c, c, sat);
  }

  // ----- emptying the registry -----

  function UnregisterAll(r: Registry, ids: seq<string>): Registry
    decreases |ids|
  {
    if |ids| == 0 then r else UnregisterAll(Unregistered(r, ids[0]), ids[1..])
  }

  lemma NoNodesNoAliases(r: Registry)
    requires AliasesLive(r) && r.nodes == map[]
    ensures r.aliases == map[]
  {
    assert forall a :: Live(r, a) ==> a !in r.aliases;
  }

  /** Unregistering every listed id of a consistent registry leaves no node and no alias. */
  lemma {:induction false} UnregisterAllEmpties(r: Registry, ids: seq<string>)
    requires Consistent(r) && forall n <- r.nodes :: n in ids
    ensures UnregisterAll(r, ids).nodes == map[] && UnregisterAll(r, ids).aliases == map[]
    decreases |ids|
  {
    if ids == [] {
      NoNodesNoAliases(r);
    } else {
      var next := Unregistered(r, ids[0]);
      UnregisteredKeepsConsistent(r, ids[0]);
      assert ids[0] in r.nodes ==> Settled(r, ids[0]);
      forall n | n in next.nodes ensures n in ids[1..] {
        assert n in r.nodes && n != ids[0];
        assert ids == [ids[0]] + ids[1..];
      }
      UnregisterAllEmpties(next, ids[1..]);
    }
  }

  // ----- when the listed ids empty it -----

  /** All these ids resolve to themselves. */
  predicate SelfResolving(r: Registry, ids: seq<string>) {
    forall i <- ids :: Resolve(r, i) == i
  }

  predicate Listed(r: Registry, ids: seq<string>) {
    forall n <- r.nodes :: n in ids
  }

  predicate Distinct(ids: seq<string>) {
    forall i, j :: 0 <= i < j < |ids| ==> ids[i] != ids[j]
  }

  lemma HeadAndTail(ids: seq<string>)
    requires ids != [] && Distinct(ids)
    ensures Distinct(ids[1..]) && ids[0] !in ids[1..]
    ensures forall i :: i in ids <==> i == ids[0] || i in ids[1..]
  {
    assert ids == [ids[0]] + ids[1..];
  }

  lemma {:induction false} SelfResolvingEmpties(r: Registry, ids: seq<string>)
    requires SelfResolving(r, ids) && Listed(r, ids) && Distinct(ids)
    ensures UnregisterAll(r, ids).nodes == map[]
    decreases |ids|
  {
    if |ids| > 0 {
      HeadAndTail(ids);
      SelfResolvingEmpties(Unregistered(r, ids[0]), ids[1..]);
    } else {
      assert forall n :: n in r.nodes ==> n in ids;
    }
  }

  /** A node that none of the ids resolves to stays. */
  lemma {:induction false} UnlistedStays(r: Registry, h: string, ids: seq<string>)
    requires h in r.nodes && h !in ids && forall i <- ids :: Resolve(r, i) != h
    ensures h in UnregisterAll(r, ids).nodes
    decreases |ids|
  {
    if |ids| > 0 {
      assert ids[0] in ids && forall i :: i in ids[1..] ==> i in ids;
      UnlistedStays(Unregistered(r, ids[0]), h, ids[1..]);
    }
  }

  /** The node `h` is hidden behind `comm`: its id resolves there. */
  predicate Hides(r: Registry, h: string, comm: string, ids: seq<string>) {
    && h != comm && h in r.nodes && comm in r.nodes && Resolve(r, h) == comm
    && forall i <- ids :: i == h || Resolve(r, i) == i
  }

  /** Which of the two the list names first. */
  predicate ComesFirst(h: string, comm: string, ids: seq<string>) {
    ids != [] && (ids[0] == h || (ids[0] != comm && ComesFirst(h, comm, ids[1..])))
  }

  lemma {:induction false} FirstIsLess(h: string, comm: string, ids: seq<string>)
    requires Ascending(ids) && h != comm && h in ids && comm in ids
    ensures ComesFirst(h, comm, ids) <==> StrLess(h, comm)
    decreases |ids|
  {
    StrTrichotomy(h, comm);
    assert forall i :: i in ids <==> i == ids[0] || i in ids[1..];
    assert forall i :: i in ids[1..] ==> StrLess(ids[0], i);
    if ids[0] != h && ids[0] != comm {
      FirstIsLess(h, comm, ids[1..]);
    }
  }

  /** The hidden node stays exactly if it is listed before the node that hides it. */
  lemma {:induction false} HiddenStays(r: Registry, h: string, comm: string, ids: seq<string>)
    requires Hides(r, h, comm, ids) && Listed(r, ids) && Distinct(ids)
    ensures if ComesFirst(h, comm, ids) then h in UnregisterAll(r, ids).nodes else UnregisterAll(r, ids).nodes == map[]
    decreases |ids|
  {
    HeadAndTail(ids);
    var next, rest := Unregistered(r, ids[0]), ids[1..];
    if ids[0] == h {
      UnlistedStays(next, h, rest);
    } else if ids[0] == comm {
      SelfResolvingEmpties(next, rest);
    } else {
      HiddenStays(next, h, comm, rest);
    }
  }

  /** A registration that carries the id of a live node which it neither renews nor evicts. */
  predicate Borrows(r: Registry, m: Registration) {
    var (comm, sat) := Ids(m);
    m.nodeId != "" && m.nodeId != comm && m.nodeId in r.nodes && m.nodeId != Resolve(r, sat)
  }

  lemma BorrowedStays(r: Registry, m: Registration, now: int)
    requires Consistent(r) && Accepts(r, m)
    ensures Borrows(r, m) <==>
            m.nodeId != "" && m.nodeId != Ids(m).0 && m.nodeId in Registered(r, m, now).nodes
  {
    if m.nodeId in r.nodes {
      SurvivorIff(r, Ids(m).0, Ids(m).1, m.nodeId);
    }
  }

  lemma RegisteredResolves(r: Registry, m: Registration, now: int, n: string)
    requires Consistent(r) && Accepts(r, m) && n in Registered(r, m, now).nodes
    ensures Resolve(Registered(r, m, now), n) == if n == m.nodeId && n != "" then Ids(m).0 else n
  {
    var (comm, sat) := Ids(m);
    var middle := Evicted(r, comm, sat);
    if n != comm {
      EvictedKeepsConsistent(r, comm, sat);
      assert n in middle.nodes && Settled(middle, n) && n in r.nodes;
      SurvivorIff(r, comm, sat, n);
      assert Settled(r, n);
      assert n != sat;
    }
  }

  lemma {:induction false} UnregisterAllKeepsLive(r: Registry, ids: seq<string>)
    requires AliasesLive(r)
    ensures AliasesLive(UnregisterAll(r, ids))
    decreases |ids|
  {
    if |ids| > 0 {
      RemovedKeepsLive(r, Resolve(r, ids[0]));
      UnregisterAllKeepsLive(Unregistered(r, ids[0]), ids[1..]);
    }
  }

  /** After a registration in a consistent registry, unregistering all ids in the order in which
      they are listed leaves it empty exactly unless the message borrows the id of a live node
      that sorts before the communication id. */
  lemma EmptiedUnlessBorrowedBefore(r: Registry, m: Registration, now: int)
    requires Consistent(r) && Accepts(r, m)
    ensures var next := Registered(r, m, now);
      var last := UnregisterAll(next, SortedKeys(next.nodes.Keys));
      && (last.nodes == map[] <==> !(Borrows(r, m) && StrLess(m.nodeId, Ids(m).0)))
      && (last.nodes == map[] ==> last.aliases == map[])
  {
    var next, comm := Registered(r, m, now), Ids(m).0;
    var ids := SortedKeys(next.nodes.Keys);
    SortedKeysAscending(next.nodes.Keys);
    AscendingDistinct(ids);
    assert comm in next.nodes;
    forall n | n in ids ensures Resolve(next, n) == if n == m.nodeId && n != "" then comm else n {
      RegisteredResolves(r, m, now, n);
    }
    BorrowedStays(r, m, now);
    if Borrows(r, m) {
      assert m.nodeId in ids && comm in ids;
      HiddenStays(next, m.nodeId, comm, ids);
      FirstIsLess(m.nodeId, comm, ids);
    } else {
      SelfResolvingEmpties(next, ids);
    }
    RegisteredKeepsLive(r, m, now);
    UnregisterAllKeepsLive(next, ids);
    if UnregisterAll(next, ids).nodes == map[] {
      NoNodesNoAliases(UnregisterAll(next, ids));
    }
  }

  lemma AscendingDistinct(ids: seq<string>)
    requires Ascending(ids)
    ensures Distinct(ids)
  {
    forall i, j | 0 <= i < j < |ids| ensures ids[i] != ids[j] {
      StrTrichotomy(ids[i], ids[j]);
    }
  }

  lemma TwoRegistrations(a: string, satA: string, b: string, satB: string)
    requires "" !in {a, satA, b, satB} && a != b && satB != a && satB != satA && satA != b
    ensures var r0 := After(Fresh, Initialize);
      var r := Registered(Registered(r0, RegistrationWith(a, a, satA), 0), RegistrationWith(a, b, satB), 0);
      && r.nodes.Keys == {a, b} && Resolve(r, a) == b && Resolve(r, b) == b
  {
    RegistrationWithIds(a, a, satA);
    RegistrationWithIds(a, b, satB);
  }

  lemma ThreeCalls(m: Registration, n: Registration)
    ensures Replay([Initialize, Register(m, 0), Register(n, 0)]) ==
            Registered(Registered(After(Fresh, Initialize), m, 0), n, 0)
  {
    var calls := [Initialize, Register(m, 0), Register(n, 0)];
    var two := [Initialize, Register(m, 0)];
    assert [Initialize][..0] == [] && two[..1] == [Initialize] && calls[..2] == two;
    assert Replay([Initialize]) == After(Fresh, Initialize);
    assert Replay(two) == Registered(After(Fresh, Initialize), m, 0);
  }

  /** Two registrations under which a node survives the shutdown loop. */
  lemma BorrowedIdHidesANode(a: string, satA: string, b: string, satB: string)
    requires "" !in {a, satA, b, satB} && StrLess(a, b) && satB != a && satB != satA && satA != b
    ensures var calls := [Initialize, Register(RegistrationWith(a, a, satA), 0),
                          Register(RegistrationWith(a, b, satB), 0)];
      var r := Replay(calls);
      && r.nodes.Keys == {a, b} && Resolve(r, a) == b
      && a in UnregisterAll(r, SortedKeys(r.nodes.Keys)).nodes
  {
    ThreeCalls(RegistrationWith(a, a, satA), RegistrationWith(a, b, satB));
    StrTrichotomy(a, b);
    TwoRegistrations(a, satA, b, satB);
    var r := Replay([Initialize, Register(RegistrationWith(a, a, satA), 0), Register(RegistrationWith(a, b, satB), 0)]);
    var ids := SortedKeys({a, b});
    SortedKeysAscending({a, b});
    AscendingDistinct(ids);
    assert Hides(r, a, b, ids);
    HiddenStays(r, a, b, ids);
    FirstIsLess(a, b, ids);
  }

  // ----- registering a schedule -----

  datatype SatelliteInfo = SatelliteInfo(satelliteId: string, nodeId: string, name: string)

  function CommId(info: SatelliteInfo): string {
    if info.nodeId == "" then info.satelliteId else info.nodeId
  }

  /** The satellite id under which the registry keeps a satellite. */
  function SatId(info: SatelliteInfo): string {
    if info.satelliteId == "" then info.nodeId else info.satelliteId
  }

  function RegistrationOf(info: SatelliteInfo): Registration {
    Registration(CommId(info), if info.name == "" then info.satelliteId else info.name, "SATELLITE",
                 map["satellite_id" := info.satelliteId, "node_id" := CommId(info)])
  }

  function RegisterAll(r: Registry, infos: seq<SatelliteInfo>, now: int): Registry {
    if infos == [] then r
    else Registered(RegisterAll(r, infos[..|infos| - 1], now), RegistrationOf(infos[|infos| - 1]), now)
  }

  /** A schedule whose satellites and nodes are all different. */
  predicate DistinctSatellites(infos: seq<SatelliteInfo>) {
    && (forall i :: 0 <= i < |infos| ==> CommId(infos[i]) != "")
    && (forall i, j :: 0 <= i < j < |infos| ==> SatId(infos[i]) != SatId(infos[j]))
    && (forall i, j :: 0 <= i < |infos| && 0 <= j < |infos| && i != j ==> CommId(infos[i]) != CommId(infos[j]))
    && (forall i, j :: 0 <= i < |infos| && 0 <= j < |infos| && i != j ==> CommId(infos[i]) != SatId(infos[j]))
  }

  lemma RegistrationIds(info: SatelliteInfo)
    requires CommId(info) != ""
    ensures Ids(RegistrationOf(info)) == (CommId(info), SatId(info))
  {
    assert "node_id"[0] != "satellite_id"[0];
  }

  predicate Present(r: Registry, info: SatelliteInfo) {
    && CommId(info) in r.nodes && r.nodes[CommId(info)].satelliteId == SatId(info)
    && r.nodes[CommId(info)].kind == "SATELLITE"
    && (info.name != "" ==> r.nodes[CommId(info)].name == info.name)
    && (info.name == "" ==> r.nodes[CommId(info)].name == info.satelliteId)
    && CommId(info) in r.aliases && r.aliases[CommId(info)] == CommId(info)
    && SatId(info) in r.aliases && r.aliases[SatId(info)] == CommId(info)
  }

  ghost predicate HasNode(infos: seq<SatelliteInfo>, n: string) {
    exists i :: 0 <= i < |infos| && CommId(infos[i]) == n
  }

  ghost predicate HasName(infos: seq<SatelliteInfo>, a: string) {
    exists i :: 0 <= i < |infos| && (CommId(infos[i]) == a || SatId(infos[i]) == a)
  }

  /** The registry holds the satellites of a schedule and nothing else. */
  ghost predicate Holds(r: Registry, infos: seq<SatelliteInfo>) {
    && (forall i {:trigger Present(r, infos[i])} :: 0 <= i < |infos| ==> Present(r, infos[i]))
    && (forall n {:trigger HasNode(infos, n)} :: n in r.nodes ==> HasNode(infos, n))
    && (forall a {:trigger HasName(infos, a)} :: a in r.aliases ==> HasName(infos, a))
  }

  lemma PresentStays(r: Registry, info: SatelliteInfo, last: SatelliteInfo, now: int)
    requires r.initialized && Present(r, info) && CommId(last) != "" && SatId(last) !in r.aliases
    requires CommId(info) != CommId(last) && CommId(info) != SatId(last)
    requires CommId(last) != SatId(info) && SatId(info) != SatId(last)
    ensures Present(Registered(r, RegistrationOf(last), now), info)
  {
    RegistrationIds(last);
  }

  lemma NamesGrow(before: seq<SatelliteInfo>, last: SatelliteInfo, k: string)
    ensures HasNode(before, k) ==> HasNode(before + [last], k)
    ensures HasName(before, k) ==> HasName(before + [last], k)
    ensures HasNode(before + [last], CommId(last))
    ensures HasName(before + [last], CommId(last)) && HasName(before + [last], SatId(last))
  {
    var infos := before + [last];
    assert infos[|before|] == last;
    if HasNode(before, k) {
      var i :| 0 <= i < |before| && CommId(before[i]) == k;
      assert infos[i] == before[i];
    }
    if HasName(before, k) {
      var i :| 0 <= i < |before| && (CommId(before[i]) == k || SatId(before[i]) == k);
      assert infos[i] == before[i];
    }
  }

  lemma NewSatellite(before: seq<SatelliteInfo>, last: SatelliteInfo)
    requires DistinctSatellites(before + [last])
    ensures !HasName(before, SatId(last))
  {
    var infos := before + [last];
    assert infos[|before|] == last;
    forall i | 0 <= i < |before| ensures CommId(before[i]) != SatId(last) && SatId(before[i]) != SatId(last) {
      assert infos[i] == before[i];
    }
  }

  lemma ScheduleStep(r: Registry, before: seq<SatelliteInfo>, last: SatelliteInfo, now: int)
    requires r.initialized && Holds(r, before) && DistinctSatellites(before + [last])
    ensures var next := Registered(r, RegistrationOf(last), now);
      next.initialized && Holds(next, before + [last])
  {
    var infos, next := before + [last], Registered(r, RegistrationOf(last), now);
    assert infos[|before|] == last;
    RegistrationIds(last);
    NewSatellite(before, last);
    assert SatId(last) !in r.aliases;
    forall i | 0 <= i < |infos| ensures Present(next, infos[i]) {
      if i < |before| {
        assert infos[i] == before[i] && Present(r, before[i]);
        PresentStays(r, infos[i], last, now);
      }
    }
    forall n | n in next.nodes ensures HasNode(infos, n) {
      NamesGrow(before, last, n);
      assert n in r.nodes ==> HasNode(before, n);
    }
    forall a | a in next.aliases ensures HasName(infos, a) {
      NamesGrow(before, last, a);
      assert a in r.aliases ==> HasName(before, a);
    }
  }

  /** A schedule with distinct ids is registered completely: every satellite ends with its own
      node, found by its communication id and by its satellite id. */
  lemma {:induction false} ScheduleRegistered(infos: seq<SatelliteInfo>, now: int)
    requires DistinctSatellites(infos)
    ensures var r := RegisterAll(Replay([Initialize]), infos, now);
      r.initialized && Holds(r, infos)
  {
    if infos == [] {
      assert Replay([Initialize][..0]) == Fresh;
    } else {
      var n := |infos| - 1;
      assert infos == infos[..n] + [infos[n]];
      ScheduleRegistered(infos[..n], now);
      ScheduleStep(RegisterAll(Replay([Initialize]), infos[..n], now), infos[..n], infos[n], now);
    }
  }

  /** The aliases once the iterator has passed these keys. */
  function Erasing(aliases: map<string, string>, id: string, passed: seq<string>): map<string, string> {
    map a | a in aliases && (aliases[a] != id || a !in passed) :: aliases[a]
  }

  lemma EraseOneMore(aliases: map<string, string>, id: string, passed: seq<string>, k: string)
    requires k in aliases
    ensures var now := Erasing(aliases, id, passed);
      Erasing(aliases, id, passed + [k]) == if k in now && now[k] == id then now - {k} else now
  {
  }

  // ----- the class -----

  class NodeRegistry {
    var initialized: bool
    var nodes: map<string, NodeInfo>
    var aliases: map<string, string>

    function Now(): Registry
      reads this
    {
      Registry(initialized, nodes, aliases)
    }

    constructor ()
      ensures Now() == Fresh
    {
      initialized := false;
      nodes := map[];
      aliases := map[];
    }

    method Initialize() returns (ok: bool)
      modifies this
      ensures ok && Now() == After(old(Now()), Call.Initialize)
    {
      if !initialized {
        initialized := true;
      }
      ok := true;
    }

    method Shutdown()
      modifies this
      ensures Now() == After(old(Now()), Call.Shutdown)
    {
      if !initialized {
        return;
      }
      initialized := false;
      nodes := map[];
      aliases := map[];
    }

    /** Erases the aliases of one node while walking over all of them in key order. */
    method EraseAliases(id: string)
      modifies this`aliases
      ensures aliases == WithoutAliases(old(aliases), id)
    {
      var keys := SortedKeys(aliases.Keys);
      ghost var all := aliases;
      var i := 0;
      assert keys[..0] == [];
      while i < |keys|
        invariant 0 <= i <= |keys|
        invariant aliases == Erasing(all, id, keys[..i])
      {
        EraseOneMore(all, id, keys[..i], keys[i]);
        assert keys[..i + 1] == keys[..i] + [keys[i]];
        if keys[i] in aliases && aliases[keys[i]] == id {
          aliases := aliases - {keys[i]};
        }
        i := i + 1;
      }
      assert keys[..i] == keys;
    }

    method RegisterNode(m: Registration, now: int) returns (nodeId: Option<string>)
      modifies this
      ensures Now() == Registered(old(Now()), m, now)
      ensures nodeId == if Accepts(old(Now()), m) then Some(Ids(m).0) else None
    {
      if !initialized {
        return None;
      }
      ghost var before := Now();
      var comm := if "node_id" in m.metadata then m.metadata["node_id"] else "";
      if comm == "" {
        comm := m.nodeId;
      }
      var sat := if "satellite_id" in m.metadata then m.metadata["satellite_id"] else "";
      if sat == "" {
        sat := m.nodeId;
      }
      if comm == "" && sat == "" {
        return None;
      }
      if comm == "" {
        comm := sat;
      }
      if sat == "" {
        sat := comm;
      }
      assert Ids(m) == (comm, sat);
      if sat in aliases && aliases[sat] != comm {
        var stale := aliases[sat];
        nodes := nodes - {stale};
        EraseAliases(stale);
      }
      assert Now() == Evicted(before, comm, sat);
      ghost var middle := Now();
      var info := NodeInfo(comm, sat, m.name, m.kind, now);
      nodes := nodes[comm := info];
      EraseAliases(comm);
      aliases := aliases[comm := comm];
      aliases := aliases[sat := comm];
      if m.nodeId != "" {
        aliases := aliases[m.nodeId := comm];
      }
      assert Now() == Enter(middle, info, m.nodeId);
      nodeId := Some(comm);
    }

    method UnregisterNode(id: string) returns (ok: bool)
      modifies this
      ensures Now() == Unregistered(old(Now()), id)
      ensures ok <==> Resolve(old(Now()), id) in old(nodes)
    {
      var resolved := if id in aliases then aliases[id] else id;
      if resolved !in nodes {
        return false;
      }
      nodes := nodes - {resolved};
      EraseAliases(resolved);
      ok := true;
    }

    method GetNodeInfo(id: string) returns (info: Option<NodeInfo>)
      ensures info == if Resolve(Now(), id) in nodes then Some(nodes[Resolve(Now(), id)]) else None
    {
      var resolved := if id in aliases then aliases[id] else id;
      info := if resolved in nodes then Some(nodes[resolved]) else None;
    }

    method GetAllNodeIds() returns (ids: seq<string>)
      ensures ids == SortedKeys(nodes.Keys)
      ensures Ascending(ids) && forall n :: n in ids <==> n in nodes
    {
      ids := SortedKeys(nodes.Keys);
      SortedKeysAscending(nodes.Keys);
    }
  }

  /** `Coordinator::registerSatelliteNodes`. */
  method RegisterSatelliteNodes(registry: NodeRegistry, infos: seq<SatelliteInfo>, now: int) returns (ok: bool)
    modifies registry
    ensures registry.Now() == RegisterAll(old(registry.Now()), infos, now)
    ensures ok <==> exists i :: 0 <= i < |infos| && CommId(infos[i]) != "" && old(registry.initialized)
  {
    var count := 0;
    for i := 0 to |infos|
      invariant registry.Now() == RegisterAll(old(registry.Now()), infos[..i], now)
      invariant registry.initialized == old(registry.initialized)
      invariant count > 0 <==> exists k :: 0 <= k < i && CommId(infos[k]) != "" && old(registry.initialized)
      invariant count >= 0
    {
      assert infos[..i + 1][..i] == infos[..i];
      RegistrationAccepted(infos[i]);
      var given := registry.RegisterNode(RegistrationOf(infos[i]), now);
      if given.Some? {
        count := count + 1;
      }
    }
    assert infos[..|infos|] == infos;
    ok := count > 0;
  }

  lemma RegistrationAccepted(info: SatelliteInfo)
    ensures Ids(RegistrationOf(info)).0 == CommId(info)
  {
    assert "node_id"[0] != "satellite_id"[0];
  }

  /** The part of `Coordinator::shutdown` that empties the registry, before its own shutdown. */
  method UnregisterAllNodes(registry: NodeRegistry)
    modifies registry
    ensures registry.Now() == UnregisterAll(old(registry.Now()), SortedKeys(old(registry.nodes.Keys)))
    ensures Consistent(old(registry.Now())) ==> registry.nodes == map[] && registry.aliases == map[]
  {
    var ids := registry.GetAllNodeIds();
    ghost var start := registry.Now();
    for i := 0 to |ids|
      invariant UnregisterAll(start, ids) == UnregisterAll(registry.Now(), ids[i..])
    {
      LeftBehind(ids, i);
      var ok := registry.UnregisterNode(ids[i]);
    }
    if Consistent(start) {
      UnregisterAllEmpties(start, ids);
    }
  }
}
