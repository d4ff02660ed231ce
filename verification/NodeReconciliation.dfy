/**
 Reconciliation of the nodes Konnect shows for the controller and its gateways. Every call to the
 node API may fail; a failed call leaves the nodes as they were and is, except where the code
 returns early, only logged.
 */
module NodeReconciliation {
  import opened Common

  datatype NodeType = IngressController | KongProxy | OtherType(name: string)

  datatype Node = Node(kind: NodeType, hostname: string, lastPing: int, version: string)

  /** A node as listed: with its ID. */
  datatype Item = Item(id: string, node: Node)

  datatype GatewayInstance = GatewayInstance(hostname: string, version: string, nodeID: string)

  type Nodes = map<string, Node>

  predicate Is(n: Node, kind: NodeType, host: string) {
    n.kind == kind && n.hostname == host
  }

  ghost function Ids(nodes: Nodes, kind: NodeType, host: string): set<string> {
    set id | id in nodes && Is(nodes[id], kind, host)
  }

  // ---------------------------------------------------------------- what may change

  /** Only nodes of the kind with a hostname among hosts differ; a node keeps its kind and hostname. */
  ghost predicate Touches(start: Nodes, end: Nodes, kind: NodeType, hosts: set<string>) {
    && (forall id :: id in start && !(start[id].kind == kind && start[id].hostname in hosts) ==>
          id in end && end[id] == start[id])
    && (forall id :: id in end ==>
          (id in start && end[id].kind == start[id].kind && end[id].hostname == start[id].hostname)
          || (end[id].kind == kind && end[id].hostname in hosts))
  }

  lemma TouchesCompose(a: Nodes, b: Nodes, c: Nodes, kind: NodeType, h1: set<string>, h2: set<string>)
    requires Touches(a, b, kind, h1) && Touches(b, c, kind, h2)
    ensures Touches(a, c, kind, h1 + h2)
  {
  }

  /** Among the nodes of a host, one with the latest ping is still there. */
  ghost predicate NewestSurvives(start: Nodes, end: Nodes, kind: NodeType, host: string) {
    Ids(start, kind, host) != {} ==>
      exists id :: id in Ids(start, kind, host) && id in Ids(end, kind, host)
                   && forall j :: j in Ids(start, kind, host) ==> start[j].lastPing <= start[id].lastPing
  }

  ghost predicate ExactlyOne(nodes: Nodes, kind: NodeType, host: string) {
    exists id :: Ids(nodes, kind, host) == {id}
  }

  /** A stretch of readings of the clock. */
  datatype Span = Span(clock: nat -> int, first: nat, last: nat) {
    /** The ping is one of those readings. */
    ghost predicate Holds(ping: int) {
      exists n :: first <= n <= last && clock(n) == ping
    }

    ghost predicate Within(other: Span) {
      clock == other.clock && other.first <= first && last <= other.last
    }
  }

  /** Whatever nodes the host has show the version, with a last ping read from the clock in the span. */
  ghost predicate Shows(nodes: Nodes, kind: NodeType, host: string, version: string, span: Span) {
    forall id :: id in Ids(nodes, kind, host) ==> nodes[id].version == version && span.Holds(nodes[id].lastPing)
  }

  lemma ShowsWithin(nodes: Nodes, kind: NodeType, host: string, version: string, a: Span, b: Span)
    requires Shows(nodes, kind, host, version, a) && a.Within(b)
    ensures Shows(nodes, kind, host, version, b)
  {
    forall id | id in Ids(nodes, kind, host) ensures b.Holds(nodes[id].lastPing) {
      var n :| a.first <= n <= a.last && a.clock(n) == nodes[id].lastPing;
    }
  }

  /** Every node of the host is the given one. */
  ghost predicate Holds(nodes: Nodes, node: Node) {
    forall id :: id in Ids(nodes, node.kind, node.hostname) ==> nodes[id] == node
  }

  lemma HoldsShows(nodes: Nodes, node: Node, span: Span, n: nat)
    requires Holds(nodes, node) && span.first <= n <= span.last && node.lastPing == span.clock(n)
    ensures Shows(nodes, node.kind, node.hostname, node.version, span)
  {
  }

  /** A host that had no node has at most the one with the ID given for it. */
  ghost predicate NamedAs(start: Nodes, end: Nodes, kind: NodeType, host: string, id: string) {
    Ids(start, kind, host) == {} ==> Ids(end, kind, host) <= {id}
  }

  /** Nodes of other hosts are not disturbed by what happens to the given ones. */
  lemma OtherHostsKeep(start: Nodes, mid: Nodes, end: Nodes, kind: NodeType, hosts: set<string>, host: string)
    requires Touches(mid, end, kind, hosts) && host !in hosts
    ensures Ids(end, kind, host) == Ids(mid, kind, host)
    ensures forall id :: id in Ids(mid, kind, host) ==> id in end && end[id] == mid[id]
    ensures NewestSurvives(start, mid, kind, host) ==> NewestSurvives(start, end, kind, host)
    ensures ExactlyOne(mid, kind, host) ==> ExactlyOne(end, kind, host)
  {
    forall id ensures id in Ids(end, kind, host) <==> id in Ids(mid, kind, host) {
    }
  }

  /** The wanted end: one controller node, and one proxy node per live hostname. */
  ghost predicate Converged(nodes: Nodes, controller: string, live: set<string>) {
    && (forall id :: id in nodes && nodes[id].kind == IngressController ==> nodes[id].hostname == controller)
    && (forall id :: id in nodes && nodes[id].kind == KongProxy ==> nodes[id].hostname in live)
    && ExactlyOne(nodes, IngressController, controller)
    && (forall h :: h in live ==> ExactlyOne(nodes, KongProxy, h))
  }

  // ---------------------------------------------------------------- the node API

  class NodeClient {
    var nodes: Nodes
    /** Whether the n-th call fails, and what the n-th reading of the clock gives. */
    const fails: nat -> bool
    const clock: nat -> int
    var calls: nat
    ghost var failures: nat
    ghost var creates: nat
    ghost var deletes: nat

    constructor (nodes: Nodes, fails: nat -> bool, clock: nat -> int)
      ensures this.nodes == nodes && this.fails == fails && failures == 0 && creates == 0 && deletes == 0
    {
      this.nodes, this.fails, this.clock := nodes, fails, clock;
      calls, failures, creates, deletes := 0, 0, 0, 0;
    }

    /** An ID already in use cannot be created again. */
    method CreateNode(id: string, node: Node) returns (ok: bool)
      modifies this
      ensures nodes == if ok then old(nodes)[id := node] else old(nodes)
      ensures ok ==> id !in old(nodes)
      ensures calls == old(calls) + 1
      ensures creates == old(creates) + 1 && deletes == old(deletes)
      ensures failures == old(failures) + (if ok then 0 else 1)
    {
      ok := !fails(calls) && id !in nodes;
      calls, creates := calls + 1, creates + 1;
      if ok {
        nodes := nodes[id := node];
      } else {
        failures := failures + 1;
      }
    }

    method UpdateNode(id: string, node: Node) returns (ok: bool)
      modifies this
      ensures nodes == if ok then old(nodes)[id := node] else old(nodes)
      ensures ok ==> id in old(nodes)
      ensures calls == old(calls) + 1
      ensures creates == old(creates) && deletes == old(deletes) && failures == old(failures) + (if ok then 0 else 1)
    {
      ok := !fails(calls) && id in nodes;
      calls := calls + 1;
      if ok {
        nodes := nodes[id := node];
      } else {
        failures := failures + 1;
      }
    }

    method DeleteNode(id: string) returns (ok: bool)
      modifies this
      ensures nodes == if ok then old(nodes) - {id} else old(nodes)
      ensures calls == old(calls) + 1
      ensures creates == old(creates) && deletes == old(deletes) + 1
      ensures failures == old(failures) + (if ok then 0 else 1)
    {
      ok := !fails(calls) && id in nodes;
      calls, deletes := calls + 1, deletes + 1;
      if ok {
        nodes := nodes - {id};
      } else {
        failures := failures + 1;
      }
    }

    /** Delete nodes one by one; a failure is logged and the loop goes on. */
    method DeleteEach(items: seq<Item>) returns (ghost removed: set<string>)
      modifies this
      ensures removed <= ItemIds(items) && nodes == old(nodes) - removed && calls == old(calls) + |items|
      ensures creates == old(creates) && deletes == old(deletes) + |items| && failures >= old(failures)
      ensures failures == old(failures) ==> removed == ItemIds(items)
    {
      removed := {};
      for i := 0 to |items|
        invariant removed <= ItemIds(items[..i]) && nodes == old(nodes) - removed && calls == old(calls) + i
        invariant creates == old(creates) && deletes == old(deletes) + i && failures >= old(failures)
        invariant failures == old(failures) ==> removed == ItemIds(items[..i])
      {
        ItemIdsSnoc(items, i);
        var ok := DeleteNode(items[i].id);
        if ok {
          removed := removed + {items[i].id};
        }
      }
      assert items[..|items|] == items;
    }
  }

  ghost function ItemIds(items: seq<Item>): set<string> {
    set it | it in items :: it.id
  }

  lemma ItemIdsSnoc(items: seq<Item>, i: nat)
    requires i < |items|
    ensures ItemIds(items[..i + 1]) == ItemIds(items[..i]) + {items[i].id}
  {
    assert items[..i + 1] == items[..i] + [items[i]];
  }

  // ---------------------------------------------------------------- listings

  ghost predicate DistinctIds(items: seq<Item>) {
    forall i, j :: 0 <= i < j < |items| ==> items[i].id != items[j].id
  }

  /** A complete listing of the nodes. */
  ghost predicate Listing(items: seq<Item>, nodes: Nodes) {
    && DistinctIds(items) && ItemIds(items) == nodes.Keys
    && forall it :: it in items ==> it.id in nodes && nodes[it.id] == it.node
  }

  function ItemsFor(items: seq<Item>, kind: NodeType, host: string): seq<Item> {
    if items == [] then []
    else
      var init, last := items[..|items| - 1], items[|items| - 1];
      ItemsFor(init, kind, host) + (if Is(last.node, kind, host) then [last] else [])
  }

  lemma {:induction false} ItemsForMeans(items: seq<Item>, kind: NodeType, host: string)
    requires DistinctIds(items)
    ensures forall it :: it in ItemsFor(items, kind, host) <==> it in items && Is(it.node, kind, host)
    ensures DistinctIds(ItemsFor(items, kind, host))
  {
    if items != [] {
      var init, last := items[..|items| - 1], items[|items| - 1];
      ItemsForMeans(init, kind, host);
      assert items == init + [last];
      assert forall it :: it in init ==> it.id != last.id;
    }
  }

  predicate NewestFirst(items: seq<Item>) {
    forall i, j :: 0 <= i < j < |items| ==> items[i].node.lastPing >= items[j].node.lastPing
  }

  /** sortNodesByLastPing: newest first; the order among equal pings is not specified. */
  function SortByLastPing(items: seq<Item>): (r: seq<Item>)
    ensures multiset(r) == multiset(items) && NewestFirst(r)
  {
    if items == [] then [] else
      assert items == [items[0]] + items[1..];
      InsertByLastPing(items[0], SortByLastPing(items[1..]))
  }

  function InsertByLastPing(it: Item, items: seq<Item>): (r: seq<Item>)
    requires NewestFirst(items)
    ensures multiset(r) == multiset([it] + items) && NewestFirst(r)
  {
    if items == [] || it.node.lastPing >= items[0].node.lastPing then [it] + items
    else
      var t := InsertByLastPing(it, items[1..]);
      assert [it] + items == [it] + [items[0]] + items[1..];
      InsertBehind(it, items, t);
      [items[0]] + t
  }

  lemma InsertBehind(it: Item, items: seq<Item>, t: seq<Item>)
    requires NewestFirst(items) && items != [] && it.node.lastPing < items[0].node.lastPing && NewestFirst(t)
    requires multiset(t) == multiset([it] + items[1..])
    ensures NewestFirst([items[0]] + t)
  {
    forall j | 0 <= j < |t| ensures t[j].node.lastPing <= items[0].node.lastPing {
      assert t[j] in multiset(t);
      assert t[j] == it || t[j] in items[1..];
    }
  }

  // ---------------------------------------------------------------- one host

  /** The listed nodes of one host, as they currently are. */
  ghost predicate ListsHost(items: seq<Item>, nodes: Nodes, kind: NodeType, host: string) {
    && DistinctIds(items) && ItemIds(items) == Ids(nodes, kind, host)
    && forall it :: it in items ==> it.id in nodes && nodes[it.id] == it.node
  }

  lemma SortedListsHost(items: seq<Item>, nodes: Nodes, kind: NodeType, host: string)
    requires ListsHost(items, nodes, kind, host) && items != []
    ensures var sorted := SortByLastPing(items);
            && sorted != [] && ListsHost(sorted, nodes, kind, host) && |sorted| == |items|
            && forall id :: id in Ids(nodes, kind, host) ==> nodes[id].lastPing <= nodes[sorted[0].id].lastPing
  {
    var sorted := SortByLastPing(items);
    SortKeepsItems(items, sorted);
    forall id | id in Ids(nodes, kind, host) ensures nodes[id].lastPing <= nodes[sorted[0].id].lastPing {
      var it :| it in sorted && it.id == id;
      var i :| 0 <= i < |sorted| && sorted[i] == it;
      assert sorted[0] in sorted;
    }
  }

  lemma SortKeepsItems(items: seq<Item>, sorted: seq<Item>)
    requires multiset(sorted) == multiset(items) && DistinctIds(items)
    ensures |sorted| == |items| && DistinctIds(sorted) && ItemIds(sorted) == ItemIds(items)
              && forall it :: it in sorted <==> it in items
  {
    assert |multiset(sorted)| == |sorted| && |multiset(items)| == |items|;
    forall it ensures it in sorted <==> it in items {
      assert it in sorted <==> it in multiset(sorted);
      assert it in items <==> it in multiset(items);
    }
    forall i, j | 0 <= i < j < |sorted| ensures sorted[i].id != sorted[j].id {
      ItemsOnce(items, sorted[i]);
      MultisetTwo(sorted, i, j);
      assert sorted[i] in items && sorted[j] in items;
    }
  }

  lemma {:induction false} ItemsOnce(items: seq<Item>, it: Item)
    requires DistinctIds(items)
    ensures multiset(items)[it] <= 1
  {
    if items != [] {
      assert items == [items[0]] + items[1..];
      ItemsOnce(items[1..], it);
      if items[0] == it {
        assert it !in items[1..];
      }
    }
  }

  lemma MultisetTwo(s: seq<Item>, i: nat, j: nat)
    requires i < j < |s|
    ensures s[i] == s[j] ==> multiset(s)[s[i]] >= 2
  {
    assert s == s[..i] + [s[i]] + s[i + 1..j] + [s[j]] + s[j + 1..];
  }

  /** Update the newest node of a host and, if that worked, delete the others. */
  method RefreshHost(c: NodeClient, ns: seq<Item>, wanted: Node) returns (ok: bool)
    requires ns != [] && ListsHost(ns, c.nodes, wanted.kind, wanted.hostname)
    modifies c
    ensures Touches(old(c.nodes), c.nodes, wanted.kind, {wanted.hostname})
    ensures NewestSurvives(old(c.nodes), c.nodes, wanted.kind, wanted.hostname)
    ensures c.creates == old(c.creates) && c.failures >= old(c.failures)
    ensures c.failures == old(c.failures) ==>
              ok && ExactlyOne(c.nodes, wanted.kind, wanted.hostname)
                && Holds(c.nodes, wanted)
    ensures !ok ==> c.nodes == old(c.nodes)
    ensures c.calls >= old(c.calls)
    ensures |ns| == 1 ==> c.deletes == old(c.deletes)
  {
    ghost var start := c.nodes;
    SortedListsHost(ns, start, wanted.kind, wanted.hostname);
    var sorted := SortByLastPing(ns);
    assert sorted[0] in sorted;
    ok := c.UpdateNode(sorted[0].id, wanted);
    ghost var removed: set<string> := {};
    if ok {
      removed := c.DeleteEach(sorted[1..]);
    }
    RefreshOutcome(start, sorted, wanted, ok, removed, c.nodes);
  }

  lemma RefreshOutcome(start: Nodes, sorted: seq<Item>, node: Node, ok: bool, removed: set<string>, end: Nodes)
    requires sorted != [] && ListsHost(sorted, start, node.kind, node.hostname)
    requires forall id :: id in Ids(start, node.kind, node.hostname) ==>
               start[id].lastPing <= start[sorted[0].id].lastPing
    requires removed <= ItemIds(sorted[1..]) && end == (if ok then start[sorted[0].id := node] - removed else start)
    ensures Touches(start, end, node.kind, {node.hostname})
    ensures NewestSurvives(start, end, node.kind, node.hostname)
    ensures ok && removed == ItemIds(sorted[1..]) ==>
              ExactlyOne(end, node.kind, node.hostname) && Holds(end, node)
  {
    var id := sorted[0].id;
    assert sorted[0] in sorted && sorted == [sorted[0]] + sorted[1..];
    assert id !in ItemIds(sorted[1..]);
    assert ItemIds(sorted) == {id} + ItemIds(sorted[1..]);
    assert id in Ids(start, node.kind, node.hostname) && id in Ids(end, node.kind, node.hostname);
    if ok && removed == ItemIds(sorted[1..]) {
      assert Ids(end, node.kind, node.hostname) == {id};
    }
  }

  // ---------------------------------------------------------------- the controller's own node

  ghost function HostsOf(nodes: Nodes, kind: NodeType): set<string> {
    set id | id in nodes && nodes[id].kind == kind :: nodes[id].hostname
  }

  ghost predicate OnlyHost(nodes: Nodes, kind: NodeType, host: string) {
    forall id :: id in nodes && nodes[id].kind == kind ==> nodes[id].hostname == host
  }

  lemma ItemsForLists(items: seq<Item>, nodes: Nodes, kind: NodeType, host: string)
    requires Listing(items, nodes)
    ensures ListsHost(ItemsFor(items, kind, host), nodes, kind, host)
  {
    ItemsForMeans(items, kind, host);
    forall id | id in Ids(nodes, kind, host) ensures id in ItemIds(ItemsFor(items, kind, host)) {
      assert id in ItemIds(items);
      var it :| it in items && it.id == id;
      assert it in ItemsFor(items, kind, host);
    }
  }

  /** Nodes of the controller type whose hostname is not the controller's. */
  function Foreign(items: seq<Item>, host: string): seq<Item> {
    if items == [] then []
    else
      var init, last := items[..|items| - 1], items[|items| - 1];
      Foreign(init, host) + (if last.node.kind == IngressController && last.node.hostname != host then [last] else [])
  }

  lemma {:induction false} ForeignMeans(items: seq<Item>, host: string)
    ensures forall it :: it in Foreign(items, host) <==>
              it in items && it.node.kind == IngressController && it.node.hostname != host
  {
    if items != [] {
      ForeignMeans(items[..|items| - 1], host);
      assert items == items[..|items| - 1] + [items[|items| - 1]];
    }
  }

  /** The first loop of updateKICNode: delete foreign controller nodes, collect those of this host. */
  method DeleteForeign(c: NodeClient, existing: seq<Item>, host: string)
    returns (sameName: seq<Item>, ghost removed: set<string>)
    modifies c
    ensures sameName == ItemsFor(existing, IngressController, host)
    ensures removed <= ItemIds(Foreign(existing, host)) && c.nodes == old(c.nodes) - removed
    ensures c.creates == old(c.creates) && c.deletes == old(c.deletes) + |Foreign(existing, host)|
    ensures c.failures >= old(c.failures) && c.calls >= old(c.calls)
    ensures c.failures == old(c.failures) ==> removed == ItemIds(Foreign(existing, host))
  {
    sameName, removed := [], {};
    for i := 0 to |existing|
      invariant sameName == ItemsFor(existing[..i], IngressController, host)
      invariant c.calls >= old(c.calls)
      invariant removed <= ItemIds(Foreign(existing[..i], host)) && c.nodes == old(c.nodes) - removed
      invariant c.creates == old(c.creates) && c.deletes == old(c.deletes) + |Foreign(existing[..i], host)|
      invariant c.failures >= old(c.failures)
      invariant c.failures == old(c.failures) ==> removed == ItemIds(Foreign(existing[..i], host))
    {
      var it := existing[i];
      assert existing[..i + 1][..i] == existing[..i];
      if it.node.kind != IngressController {
        continue;
      }
      if it.node.hostname == host {
        sameName := sameName + [it];
      } else {
        var before := Foreign(existing[..i], host);
        assert Foreign(existing[..i + 1], host) == before + [it];
        assert ItemIds(before + [it]) == ItemIds(before) + {it.id};
        var ok := c.DeleteNode(it.id);
        if ok {
          removed := removed + {it.id};
        }
      }
    }
    assert existing[..|existing|] == existing;
  }

  /** The foreign items are exactly the controller nodes of other hosts. */
  lemma ForeignIds(start: Nodes, existing: seq<Item>, host: string)
    requires Listing(existing, start)
    ensures forall id :: id in ItemIds(Foreign(existing, host)) <==>
              id in start && start[id].kind == IngressController && start[id].hostname != host
  {
    hide Foreign;
    ForeignMeans(existing, host);
    forall id | id in start && start[id].kind == IngressController && start[id].hostname != host
      ensures id in ItemIds(Foreign(existing, host))
    {
      assert id in ItemIds(existing);
      var it :| it in existing && it.id == id;
      assert it in Foreign(existing, host);
    }
  }

  lemma ForeignRemoved(start: Nodes, existing: seq<Item>, host: string, removed: set<string>)
    requires Listing(existing, start) && removed <= ItemIds(Foreign(existing, host))
    ensures var mid := start - removed;
            && Touches(start, mid, IngressController, HostsOf(start, IngressController) - {host})
            && ListsHost(ItemsFor(existing, IngressController, host), mid, IngressController, host)
            && Ids(mid, IngressController, host) == Ids(start, IngressController, host)
            && (removed == ItemIds(Foreign(existing, host)) ==> OnlyHost(mid, IngressController, host))
            && (OnlyHost(start, IngressController, host) ==> Foreign(existing, host) == [])
  {
    hide Foreign, ItemsFor;
    var mid := start - removed;
    ForeignIds(start, existing, host);
    ItemsForLists(existing, start, IngressController, host);
    hide Listing;
    assert Ids(mid, IngressController, host) == Ids(start, IngressController, host);
    var ns := ItemsFor(existing, IngressController, host);
    assert forall it :: it in ns ==> it.id in ItemIds(ns);
    NoItems(Foreign(existing, host));
  }

  lemma NoItems(items: seq<Item>)
    ensures items == [] <==> ItemIds(items) == {}
  {
    if items != [] {
      assert items[0].id in ItemIds(items);
    }
  }

  /** updateKICNode */
  method UpdateKICNode(c: NodeClient, existing: seq<Item>, host: string, version: string, instanceID: string)
    returns (ok: bool)
    requires Listing(existing, c.nodes)
    modifies c
    ensures Touches(old(c.nodes), c.nodes, IngressController, HostsOf(old(c.nodes), IngressController) + {host})
    ensures NewestSurvives(old(c.nodes), c.nodes, IngressController, host)
    ensures c.failures >= old(c.failures)
    ensures c.failures == old(c.failures) ==>
              ok && ExactlyOne(c.nodes, IngressController, host) && OnlyHost(c.nodes, IngressController, host)
    ensures c.calls >= old(c.calls)
    ensures c.failures == old(c.failures) ==>
              Shows(c.nodes, IngressController, host, version, Span(c.clock, old(c.calls), c.calls))
    ensures NamedAs(old(c.nodes), c.nodes, IngressController, host, instanceID)
    ensures ExactlyOne(old(c.nodes), IngressController, host) && OnlyHost(old(c.nodes), IngressController, host) ==>
              c.creates == old(c.creates) && c.deletes == old(c.deletes)
  {
    ghost var start := c.nodes;
    var sameName;
    ghost var removed;
    sameName, removed := DeleteForeign(c, existing, host);
    ForeignRemoved(start, existing, host, removed);
    ghost var mid := c.nodes;
    ghost var reading := c.calls;
    var node := Node(IngressController, host, c.clock(c.calls), version);
    ok := UpdateHost(c, sameName, node, instanceID);
    if c.failures == old(c.failures) {
      HoldsShows(c.nodes, node, Span(c.clock, old(c.calls), c.calls), reading);
    }
    KICOutcome(start, mid, c.nodes, host);
    OneItem(sameName, mid, IngressController, host);
  }

  lemma KICOutcome(start: Nodes, mid: Nodes, end: Nodes, host: string)
    requires Touches(start, mid, IngressController, HostsOf(start, IngressController) - {host})
    requires Ids(mid, IngressController, host) == Ids(start, IngressController, host)
    requires Touches(mid, end, IngressController, {host}) && NewestSurvives(mid, end, IngressController, host)
    ensures Touches(start, end, IngressController, HostsOf(start, IngressController) + {host})
    ensures NewestSurvives(start, end, IngressController, host)
    ensures OnlyHost(mid, IngressController, host) ==> OnlyHost(end, IngressController, host)
  {
    TouchesCompose(start, mid, end, IngressController, HostsOf(start, IngressController) - {host}, {host});
    assert HostsOf(start, IngressController) - {host} + {host} == HostsOf(start, IngressController) + {host};
    assert forall id :: id in Ids(start, IngressController, host) ==> mid[id] == start[id];
  }

  lemma OneItem(items: seq<Item>, nodes: Nodes, kind: NodeType, host: string)
    requires ListsHost(items, nodes, kind, host)
    ensures ExactlyOne(nodes, kind, host) ==> |items| == 1
  {
    NoItems(items);
    if |items| >= 2 {
      TwoIds(items);
    }
  }

  lemma TwoIds(items: seq<Item>)
    requires DistinctIds(items) && |items| >= 2
    ensures exists a, b :: a in ItemIds(items) && b in ItemIds(items) && a != b
  {
    assert items[0] in items && items[1] in items;
    assert items[0].id in ItemIds(items) && items[1].id in ItemIds(items) && items[0].id != items[1].id;
  }

  /** Create the node of a host that has none, else refresh the newest one. */
  method UpdateHost(c: NodeClient, ns: seq<Item>, wanted: Node, newID: string) returns (ok: bool)
    requires ListsHost(ns, c.nodes, wanted.kind, wanted.hostname)
    modifies c
    ensures Touches(old(c.nodes), c.nodes, wanted.kind, {wanted.hostname})
    ensures NewestSurvives(old(c.nodes), c.nodes, wanted.kind, wanted.hostname)
    ensures c.failures >= old(c.failures)
    ensures c.failures == old(c.failures) ==>
              ok && ExactlyOne(c.nodes, wanted.kind, wanted.hostname)
                && Holds(c.nodes, wanted)
    ensures NamedAs(old(c.nodes), c.nodes, wanted.kind, wanted.hostname, newID)
    ensures !ok ==> c.nodes == old(c.nodes)
    ensures c.calls >= old(c.calls)
    ensures |ns| == 1 ==> c.deletes == old(c.deletes) && c.creates == old(c.creates)
  {
    if |ns| == 0 {
      ghost var start := c.nodes;
      assert Ids(start, wanted.kind, wanted.hostname) == {};
      ok := c.CreateNode(newID, wanted);
      if ok {
        assert Ids(c.nodes, wanted.kind, wanted.hostname) == {newID};
      }
    } else {
      assert ns[0].id in ItemIds(ns);
      ok := RefreshHost(c, ns, wanted);
    }
  }

  // ---------------------------------------------------------------- the gateways' nodes

  /** The existing proxy nodes by hostname. */
  method GroupByHostname(existing: seq<Item>) returns (m: map<string, seq<Item>>)
    ensures forall h :: (if h in m then m[h] else []) == ItemsFor(existing, KongProxy, h)
    ensures forall h :: h in m ==> m[h] != []
  {
    m := map[];
    hide ItemsFor;
    ItemsForNone();
    for i := 0 to |existing|
      invariant forall h :: (if h in m then m[h] else []) == ItemsFor(existing[..i], KongProxy, h)
      invariant forall h :: h in m ==> m[h] != []
    {
      var it := existing[i];
      forall h ensures ItemsFor(existing[..i + 1], KongProxy, h)
                       == ItemsFor(existing[..i], KongProxy, h) + (if Is(it.node, KongProxy, h) then [it] else []) {
        ItemsForSnoc(existing, i, KongProxy, h);
      }
      if it.node.kind == KongProxy {
        m := m[it.node.hostname := (if it.node.hostname in m then m[it.node.hostname] else []) + [it]];
      }
    }
    assert existing[..|existing|] == existing;
  }

  lemma ItemsForNone()
    ensures forall h :: ItemsFor([], KongProxy, h) == []
  {
  }

  lemma ItemsForSnoc(items: seq<Item>, i: nat, kind: NodeType, host: string)
    requires i < |items|
    ensures ItemsFor(items[..i + 1], kind, host)
            == ItemsFor(items[..i], kind, host) + (if Is(items[i].node, kind, host) then [items[i]] else [])
  {
    assert items[..i + 1][..i] == items[..i];
  }

  ghost function Hostnames(gateways: seq<GatewayInstance>): set<string> {
    set g | g in gateways :: g.hostname
  }

  ghost predicate DistinctHostnames(gateways: seq<GatewayInstance>) {
    forall i, j :: 0 <= i < j < |gateways| ==> gateways[i].hostname != gateways[j].hostname
  }

  /** The listing still tells the truth about proxy nodes. */
  ghost predicate ProxiesListed(existing: seq<Item>, nodes: Nodes) {
    forall h :: ListsHost(ItemsFor(existing, KongProxy, h), nodes, KongProxy, h)
  }

  /** What has been achieved for the hosts handled so far. */
  ghost predicate HostsHandled(start: Nodes, nodes: Nodes, hosts: set<string>, flawless: bool) {
    && Touches(start, nodes, KongProxy, hosts)
    && (forall h :: h in hosts ==> NewestSurvives(start, nodes, KongProxy, h))
    && (flawless ==> forall h :: h in hosts ==> ExactlyOne(nodes, KongProxy, h))
  }

  ghost predicate GatewaysShown(nodes: Nodes, gateways: seq<GatewayInstance>, span: Span) {
    forall g :: g in gateways ==> Shows(nodes, KongProxy, g.hostname, g.version, span)
  }

  ghost predicate GatewaysNamed(start: Nodes, end: Nodes, gateways: seq<GatewayInstance>) {
    forall g :: g in gateways ==> NamedAs(start, end, KongProxy, g.hostname, g.nodeID)
  }

  lemma ShownKept(mid: Nodes, end: Nodes, hosts: set<string>, gateways: seq<GatewayInstance>, a: Span, b: Span)
    requires Touches(mid, end, KongProxy, hosts) && (forall g :: g in gateways ==> g.hostname !in hosts) && a.Within(b)
    ensures GatewaysShown(mid, gateways, a) ==> GatewaysShown(end, gateways, b)
  {
    hide Touches, Ids, Span.Within, Shows;
    forall g | g in gateways && Shows(mid, KongProxy, g.hostname, g.version, a)
      ensures Shows(end, KongProxy, g.hostname, g.version, b)
    {
      ShowsElsewhere(mid, end, hosts, g.hostname, g.version, a);
      ShowsWithin(end, KongProxy, g.hostname, g.version, a, b);
    }
  }

  lemma ShowsElsewhere(mid: Nodes, end: Nodes, hosts: set<string>, host: string, version: string, span: Span)
    requires Touches(mid, end, KongProxy, hosts) && host !in hosts && Shows(mid, KongProxy, host, version, span)
    ensures Shows(end, KongProxy, host, version, span)
  {
    hide Touches, Ids, Span.Holds, NewestSurvives, ExactlyOne;
    OtherHostsKeep(mid, mid, end, KongProxy, hosts, host);
  }

  lemma NamedKept(start: Nodes, mid: Nodes, end: Nodes, hosts: set<string>, gateways: seq<GatewayInstance>)
    requires Touches(mid, end, KongProxy, hosts) && forall g :: g in gateways ==> g.hostname !in hosts
    ensures GatewaysNamed(start, mid, gateways) ==> GatewaysNamed(start, end, gateways)
  {
    hide Touches, Ids;
    forall g | g in gateways ensures Ids(end, KongProxy, g.hostname) == Ids(mid, KongProxy, g.hostname) {
      OtherHostsKeep(mid, mid, end, KongProxy, hosts, g.hostname);
    }
  }

  /** The handled host, and those before it. */
  lemma OneMoreShown(start: Nodes, mid: Nodes, end: Nodes, gateways: seq<GatewayInstance>, i: nat, done: set<string>,
                     a: Span, b: Span, flawless: bool)
    requires i < |gateways| && Touches(start, mid, KongProxy, done) && gateways[i].hostname !in done
    requires Touches(mid, end, KongProxy, {gateways[i].hostname}) && a.Within(b)
    requires forall g :: g in gateways[..i] ==> g.hostname != gateways[i].hostname
    requires GatewaysNamed(start, mid, gateways[..i])
    requires NamedAs(mid, end, KongProxy, gateways[i].hostname, gateways[i].nodeID)
    requires flawless ==> GatewaysShown(mid, gateways[..i], a)
    requires flawless ==> Shows(end, KongProxy, gateways[i].hostname, gateways[i].version, b)
    ensures GatewaysNamed(start, end, gateways[..i + 1])
    ensures flawless ==> GatewaysShown(end, gateways[..i + 1], b)
  {
    hide Touches, Ids, Shows, Span.Within;
    var g := gateways[i];
    assert gateways[..i + 1] == gateways[..i] + [g];
    OtherHostsKeep(start, start, mid, KongProxy, done, g.hostname);
    ShownKept(mid, end, {g.hostname}, gateways[..i], a, b);
    NamedKept(start, mid, end, {g.hostname}, gateways[..i]);
  }

  lemma HandleOneMore(start: Nodes, mid: Nodes, end: Nodes, hosts: set<string>, host: string, before: bool, after: bool)
    requires HostsHandled(start, mid, hosts, before) && host !in hosts
    requires Touches(mid, end, KongProxy, {host}) && NewestSurvives(mid, end, KongProxy, host)
    requires after ==> before && ExactlyOne(end, KongProxy, host)
    ensures HostsHandled(start, end, hosts + {host}, after)
  {
    hide NewestSurvives, ExactlyOne, Ids, Touches;
    TouchesCompose(start, mid, end, KongProxy, hosts, {host});
    OtherHostsKeep(start, start, mid, KongProxy, hosts, host);
    SurvivesFrom(start, mid, end, KongProxy, host);
    forall h | h in hosts
      ensures NewestSurvives(start, end, KongProxy, h)
      ensures (ExactlyOne(mid, KongProxy, h) ==> ExactlyOne(end, KongProxy, h))
    {
      OtherHostsKeep(start, mid, end, KongProxy, {host}, h);
    }
  }

  lemma SurvivesFrom(start: Nodes, mid: Nodes, end: Nodes, kind: NodeType, host: string)
    requires Ids(mid, kind, host) == Ids(start, kind, host) && forall id :: id in Ids(start, kind, host) ==>
               mid[id] == start[id]
    requires NewestSurvives(mid, end, kind, host)
    ensures NewestSurvives(start, end, kind, host)
  {
  }

  /** The loop of updateGatewayNodes over the live gateways. */
  method UpdateLiveGateways(c: NodeClient, existing: seq<Item>, m: map<string, seq<Item>>,
                            gateways: seq<GatewayInstance>)
    requires ProxiesListed(existing, c.nodes) && DistinctHostnames(gateways)
    requires forall h :: (if h in m then m[h] else []) == ItemsFor(existing, KongProxy, h)
    modifies c
    ensures c.failures >= old(c.failures)
    ensures HostsHandled(old(c.nodes), c.nodes, Hostnames(gateways), c.failures == old(c.failures))
    ensures c.calls >= old(c.calls) && GatewaysNamed(old(c.nodes), c.nodes, gateways)
    ensures c.failures == old(c.failures) ==> GatewaysShown(c.nodes, gateways, Span(c.clock, old(c.calls), c.calls))
    ensures (forall h :: h in Hostnames(gateways) ==> ExactlyOne(old(c.nodes), KongProxy, h)) ==>
              c.creates == old(c.creates) && c.deletes == old(c.deletes)
  {
    hide ItemsFor, ListsHost, Touches, NewestSurvives, ExactlyOne, Ids, Shows, Holds, NamedAs, HostsHandled;
    ghost var start := c.nodes;
    NothingHandled(start);
    assert Hostnames(gateways[..0]) == {};
    for i := 0 to |gateways|
      invariant c.failures >= old(c.failures)
      invariant HostsHandled(start, c.nodes, Hostnames(gateways[..i]), c.failures == old(c.failures))
      invariant c.calls >= old(c.calls) && GatewaysNamed(start, c.nodes, gateways[..i])
      invariant c.failures == old(c.failures) ==>
                  GatewaysShown(c.nodes, gateways[..i], Span(c.clock, old(c.calls), c.calls))
      invariant (forall h :: h in Hostnames(gateways) ==> ExactlyOne(start, KongProxy, h)) ==>
                  c.creates == old(c.creates) && c.deletes == old(c.deletes)
    {
      var g := gateways[i];
      ghost var done := Hostnames(gateways[..i]);
      HostnamesSnoc(gateways, i);
      var ns := if g.hostname in m then m[g.hostname] else [];
      ghost var mid, reading, before := c.nodes, c.calls, Span(c.clock, old(c.calls), c.calls);
      ghost var flawless := c.failures == old(c.failures);
      HandledTouches(start, mid, done, flawless);
      StillListed(start, mid, existing, done, g.hostname);
      OneItem(ns, start, KongProxy, g.hostname);
      var node := Node(KongProxy, g.hostname, c.clock(c.calls), g.version);
      var ok := UpdateHost(c, ns, node, g.nodeID);
      HandleOneMore(start, mid, c.nodes, done, g.hostname, flawless, c.failures == old(c.failures));
      ghost var span := Span(c.clock, old(c.calls), c.calls);
      if c.failures == old(c.failures) {
        HoldsShows(c.nodes, node, span, reading);
      }
      OneMoreShown(start, mid, c.nodes, gateways, i, done, before, span, c.failures == old(c.failures));
    }
    assert gateways[..|gateways|] == gateways;
  }

  lemma NothingHandled(start: Nodes)
    ensures HostsHandled(start, start, {}, true)
  {
  }

  lemma HostnamesSnoc(gateways: seq<GatewayInstance>, i: nat)
    requires i < |gateways| && DistinctHostnames(gateways)
    ensures Hostnames(gateways[..i + 1]) == Hostnames(gateways[..i]) + {gateways[i].hostname}
    ensures forall g :: g in gateways[..i] ==> g.hostname != gateways[i].hostname
    ensures gateways[i].hostname !in Hostnames(gateways[..i]) && gateways[i].hostname in Hostnames(gateways)
  {
    assert gateways[..i + 1] == gateways[..i] + [gateways[i]];
    assert gateways[i] in gateways;
  }

  lemma StillListed(start: Nodes, mid: Nodes, existing: seq<Item>, hosts: set<string>, host: string)
    requires ProxiesListed(existing, start) && Touches(start, mid, KongProxy, hosts) && host !in hosts
    ensures var ns := ItemsFor(existing, KongProxy, host);
            ListsHost(ns, start, KongProxy, host) && ListsHost(ns, mid, KongProxy, host)
  {
    hide Touches, ItemsFor, ListsHost;
    ListedAfter(start, mid, ItemsFor(existing, KongProxy, host), hosts, host);
  }

  /** The last loop of updateGatewayNodes: delete the nodes of hosts without a gateway. */
  method DeleteDeadHosts(c: NodeClient, existing: seq<Item>, m: map<string, seq<Item>>, live: set<string>)
    requires forall h :: h !in live ==> ListsHost(ItemsFor(existing, KongProxy, h), c.nodes, KongProxy, h)
    requires forall h :: (if h in m then m[h] else []) == ItemsFor(existing, KongProxy, h)
    requires forall h :: h in m ==> m[h] != []
    modifies c
    ensures Touches(old(c.nodes), c.nodes, KongProxy, m.Keys - live)
    ensures c.creates == old(c.creates) && c.failures >= old(c.failures) && c.calls >= old(c.calls)
    ensures c.failures == old(c.failures) ==> forall h :: h !in live ==> Ids(c.nodes, KongProxy, h) == {}
    ensures m.Keys <= live ==> c.deletes == old(c.deletes)
  {
    ghost var start := c.nodes;
    hide ItemsFor, ListsHost, Touches, Ids, HostsDeleted;
    DeleteHosts(c, m, m.Keys - live);
    DeletedTouches(start, c.nodes, m.Keys - live, c.failures == old(c.failures));
    forall h | h !in live && h !in m ensures Ids(c.nodes, KongProxy, h) == {} {
      NoHostListed(start, existing, h);
      OtherHostsKeep(start, start, c.nodes, KongProxy, m.Keys - live, h);
    }
  }

  /** Delete all nodes of the dead hosts, host by host. */
  method DeleteHosts(c: NodeClient, m: map<string, seq<Item>>, dead: set<string>)
    requires dead <= m.Keys && forall h :: h in dead ==> ListsHost(m[h], c.nodes, KongProxy, h)
    modifies c
    ensures HostsDeleted(old(c.nodes), c.nodes, dead, c.failures == old(c.failures))
    ensures c.creates == old(c.creates) && c.failures >= old(c.failures) && c.calls >= old(c.calls)
    ensures dead == {} ==> c.deletes == old(c.deletes)
  {
    ghost var start, done := c.nodes, {};
    var rest := dead;
    hide ListsHost, Touches, Ids, HostsDeleted;
    NothingDeleted(start);
    while rest != {}
      invariant rest <= dead && done == dead - rest
      invariant HostsDeleted(start, c.nodes, done, c.failures == old(c.failures))
      invariant c.creates == old(c.creates) && c.failures >= old(c.failures) && c.calls >= old(c.calls)
      invariant dead == {} ==> c.deletes == old(c.deletes)
      decreases rest
    {
      var host :| host in rest;
      ghost var mid, flawless := c.nodes, c.failures == old(c.failures);
      DeletedTouches(start, mid, done, flawless);
      ListedAfter(start, mid, m[host], done, host);
      ghost var removed := c.DeleteEach(m[host]);
      HostDeleted(mid, m[host], host, removed);
      DeleteOneMore(start, mid, c.nodes, done, host, flawless, c.failures == old(c.failures));
      rest, done := rest - {host}, done + {host};
    }
    assert done == dead;
  }

  /** What has been achieved for the dead hosts handled so far. */
  ghost predicate HostsDeleted(start: Nodes, nodes: Nodes, hosts: set<string>, flawless: bool) {
    Touches(start, nodes, KongProxy, hosts) && (flawless ==> forall h :: h in hosts ==> Ids(nodes, KongProxy, h) == {})
  }

  lemma NothingDeleted(start: Nodes)
    ensures HostsDeleted(start, start, {}, true)
  {
  }

  lemma DeletedTouches(start: Nodes, nodes: Nodes, hosts: set<string>, flawless: bool)
    requires HostsDeleted(start, nodes, hosts, flawless)
    ensures Touches(start, nodes, KongProxy, hosts)
    ensures (flawless ==> forall h :: h in hosts ==> Ids(nodes, KongProxy, h) == {})
  {
  }

  lemma DeleteOneMore(start: Nodes, mid: Nodes, end: Nodes, hosts: set<string>, host: string, before: bool, after: bool)
    requires HostsDeleted(start, mid, hosts, before) && host !in hosts && Touches(mid, end, KongProxy, {host})
    requires after ==> before && Ids(end, KongProxy, host) == {}
    ensures HostsDeleted(start, end, hosts + {host}, after)
  {
    hide Touches, Ids;
    TouchesCompose(start, mid, end, KongProxy, hosts, {host});
    forall h | h in hosts ensures Ids(end, KongProxy, h) == Ids(mid, KongProxy, h) {
      OtherHostsKeep(start, mid, end, KongProxy, {host}, h);
    }
  }

  lemma NoHostListed(nodes: Nodes, existing: seq<Item>, host: string)
    requires ListsHost(ItemsFor(existing, KongProxy, host), nodes, KongProxy, host)
    requires ItemsFor(existing, KongProxy, host) == []
    ensures Ids(nodes, KongProxy, host) == {}
  {
  }

  lemma ListedAfter(start: Nodes, mid: Nodes, ns: seq<Item>, hosts: set<string>, host: string)
    requires ListsHost(ns, start, KongProxy, host) && Touches(start, mid, KongProxy, hosts) && host !in hosts
    ensures ListsHost(ns, mid, KongProxy, host)
  {
    hide Touches, ListsHost, Ids, NewestSurvives, ExactlyOne;
    OtherHostsKeep(start, start, mid, KongProxy, hosts, host);
    ListingKept(ns, start, mid, host);
  }

  lemma HostDeleted(mid: Nodes, ns: seq<Item>, host: string, removed: set<string>)
    requires ListsHost(ns, mid, KongProxy, host) && removed <= ItemIds(ns)
    ensures Touches(mid, mid - removed, KongProxy, {host})
    ensures removed == ItemIds(ns) ==> Ids(mid - removed, KongProxy, host) == {}
  {
  }

  /** updateGatewayNodes; gateways is what the instance getter returned, if it did not fail. */
  method UpdateGatewayNodes(c: NodeClient, existing: seq<Item>, gateways: Option<seq<GatewayInstance>>)
    returns (ok: bool)
    requires ProxiesListed(existing, c.nodes)
    requires gateways.Some? ==> DistinctHostnames(gateways.value)
    modifies c
    ensures ok <==> gateways.Some?
    ensures !ok ==> c.nodes == old(c.nodes) && c.failures == old(c.failures)
    ensures !ok ==> c.creates == old(c.creates) && c.deletes == old(c.deletes)
    ensures c.failures >= old(c.failures)
    ensures ok ==> GatewaysOutcome(old(c.nodes), c.nodes, Hostnames(gateways.value), c.failures == old(c.failures))
    ensures c.calls >= old(c.calls) && (ok ==> GatewaysNamed(old(c.nodes), c.nodes, gateways.value))
    ensures ok && c.failures == old(c.failures) ==>
              GatewaysShown(c.nodes, gateways.value, Span(c.clock, old(c.calls), c.calls))
    ensures ok && ProxiesConverged(old(c.nodes), Hostnames(gateways.value)) ==>
              c.creates == old(c.creates) && c.deletes == old(c.deletes)
  {
    if gateways.None? {
      return false;
    }
    hide ItemsFor, ListsHost, Touches, NewestSurvives, ExactlyOne, Ids, HostsHandled, Shows, NamedAs;
    ghost var start := c.nodes;
    ghost var live := Hostnames(gateways.value);
    var m := GroupByHostname(existing);
    UpdateLiveGateways(c, existing, m, gateways.value);
    ghost var mid, before := c.nodes, Span(c.clock, old(c.calls), c.calls);
    ghost var flawless := c.failures == old(c.failures);
    HandledTouches(start, mid, live, flawless);
    forall h | h !in live ensures ListsHost(ItemsFor(existing, KongProxy, h), mid, KongProxy, h) {
      StillListed(start, mid, existing, live, h);
    }
    var instanceMap := HostnameSet(gateways.value);
    DeleteDeadHosts(c, existing, m, instanceMap);
    DeadDeleted(start, mid, c.nodes, live, m.Keys - live, flawless, c.failures == old(c.failures));
    NoDeadListed(start, existing, m, live);
    assert forall g :: g in gateways.value ==> g.hostname in live;
    ShownKept(mid, c.nodes, m.Keys - live, gateways.value, before, Span(c.clock, old(c.calls), c.calls));
    NamedKept(start, mid, c.nodes, m.Keys - live, gateways.value);
    ok := true;
  }

  /** gatewayInstanceMap */
  method HostnameSet(gateways: seq<GatewayInstance>) returns (hosts: set<string>)
    ensures hosts == Hostnames(gateways)
  {
    hosts := {};
    for i := 0 to |gateways|
      invariant hosts == Hostnames(gateways[..i])
    {
      hosts := hosts + {gateways[i].hostname};
      assert gateways[..i + 1] == gateways[..i] + [gateways[i]];
    }
    assert gateways[..|gateways|] == gateways;
  }

  lemma HandledTouches(start: Nodes, mid: Nodes, live: set<string>, flawless: bool)
    requires HostsHandled(start, mid, live, flawless)
    ensures Touches(start, mid, KongProxy, live)
  {
  }

  ghost predicate ProxiesConverged(nodes: Nodes, live: set<string>) {
    && (forall id :: id in nodes && nodes[id].kind == KongProxy ==> nodes[id].hostname in live)
    && (forall h :: h in live ==> ExactlyOne(nodes, KongProxy, h))
  }

  ghost predicate GatewaysOutcome(start: Nodes, end: Nodes, live: set<string>, flawless: bool) {
    && (forall id :: id in start && start[id].kind != KongProxy ==> id in end && end[id] == start[id])
    && (forall id :: id in end && end[id].kind != KongProxy ==> id in start && start[id].kind != KongProxy)
    && (forall h :: h in live ==> NewestSurvives(start, end, KongProxy, h))
    && (flawless ==> ProxiesConverged(end, live))
  }

  lemma DeadDeleted(start: Nodes, mid: Nodes, end: Nodes, live: set<string>, dead: set<string>, before: bool,
                    after: bool)
    requires HostsHandled(start, mid, live, before) && dead !! live && Touches(mid, end, KongProxy, dead)
    requires after ==> before && forall h :: h !in live ==> Ids(end, KongProxy, h) == {}
    ensures GatewaysOutcome(start, end, live, after)
  {
    hide NewestSurvives, ExactlyOne;
    forall h | h in live
      ensures NewestSurvives(start, end, KongProxy, h)
      ensures (ExactlyOne(mid, KongProxy, h) ==> ExactlyOne(end, KongProxy, h))
    {
      hide Ids, Touches;
      OtherHostsKeep(start, mid, end, KongProxy, dead, h);
    }
    if after {
      forall id | id in end && end[id].kind == KongProxy ensures end[id].hostname in live {
        assert id in Ids(end, KongProxy, end[id].hostname);
      }
    }
  }

  lemma NoDeadListed(start: Nodes, existing: seq<Item>, m: map<string, seq<Item>>, live: set<string>)
    requires ProxiesListed(existing, start)
    requires forall h :: (if h in m then m[h] else []) == ItemsFor(existing, KongProxy, h)
    requires forall h :: h in m ==> m[h] != []
    ensures ProxiesConverged(start, live) ==> m.Keys <= live
  {
    hide ItemsFor, ExactlyOne;
    if ProxiesConverged(start, live) {
      forall h | h in m ensures h in live {
        assert ListsHost(ItemsFor(existing, KongProxy, h), start, KongProxy, h);
        assert m[h][0] in m[h] && m[h][0].id in Ids(start, KongProxy, h) by {
          assert m[h][0].id in ItemIds(m[h]);
        }
      }
    }
  }

  // ---------------------------------------------------------------- the whole update

  /** Whatever calls fail: nodes of other types are untouched, the newest controller node of this
      host stays, and so does the newest node of every live gateway. */
  ghost predicate NothingNeededIsLost(start: Nodes, end: Nodes, controller: string, live: set<string>) {
    && (forall id :: id in start && start[id].kind.OtherType? ==> id in end && end[id] == start[id])
    && (forall id :: id in end && end[id].kind.OtherType? ==> id in start && start[id] == end[id])
    && NewestSurvives(start, end, IngressController, controller)
    && (forall h :: h in live ==> NewestSurvives(start, end, KongProxy, h))
  }

  /** updateNodes; listed says whether the listing call worked. */
  method UpdateNodes(c: NodeClient, controller: string, version: string, instanceID: string,
                     listed: bool, gateways: Option<seq<GatewayInstance>>, ghost live: set<string>) returns (ok: bool)
    requires gateways.Some? ==> DistinctHostnames(gateways.value) && live == Hostnames(gateways.value)
    modifies c
    ensures c.failures >= old(c.failures)
    ensures NothingNeededIsLost(old(c.nodes), c.nodes, controller, live)
    ensures listed && gateways.Some? && c.failures == old(c.failures) ==> ok && Converged(c.nodes, controller, live)
    ensures listed && gateways.Some? && c.failures == old(c.failures) ==>
              var span := Span(c.clock, old(c.calls), c.calls);
              Shows(c.nodes, IngressController, controller, version, span)
                && GatewaysShown(c.nodes, gateways.value, span)
    ensures NamedAs(old(c.nodes), c.nodes, IngressController, controller, instanceID)
    ensures gateways.Some? ==> GatewaysNamed(old(c.nodes), c.nodes, gateways.value)
    ensures ok ==> listed && gateways.Some?
    ensures !ok ==> ProxiesUntouched(old(c.nodes), c.nodes) && (!listed ==> c.nodes == old(c.nodes))
    ensures Converged(old(c.nodes), controller, live) ==> c.creates == old(c.creates) && c.deletes == old(c.deletes)
  {
    ghost var start := c.nodes;
    hide NewestSurvives, ExactlyOne, ItemsFor, ListsHost, Listing, Touches, NothingNeededIsLost, GatewaysOutcome;
    hide OnlyHost, Shows, GatewaysShown, GatewaysNamed, NamedAs, ProxiesUntouched;
    NothingDone(start, controller, live);
    NothingNamed(start, controller, instanceID, gateways.GetOr([]));
    if !listed {
      return false;
    }
    var existing := ListAllNodes(c.nodes);
    ConvergedParts(start, controller, live);
    ok := UpdateKICNode(c, existing, controller, version, instanceID);
    ghost var mid, between := c.nodes, c.calls;
    KICDone(start, mid, existing, controller, live);
    KICLeavesProxies(start, mid, HostsOf(start, IngressController) + {controller}, gateways.GetOr([]));
    if !ok {
      return;
    }
    ghost var failures := c.failures;
    ok := UpdateGatewayNodes(c, existing, gateways);
    if ok {
      OutcomeOverall(mid, c.nodes, live, c.failures == failures, c.failures == old(c.failures));
      GatewaysDone(start, mid, c.nodes, controller, version, live, instanceID, gateways.value,
                   Span(c.clock, old(c.calls), between), Span(c.clock, between, c.calls), c.failures
                     == old(c.failures));
    }
  }

  lemma OutcomeOverall(mid: Nodes, end: Nodes, live: set<string>, here: bool, overall: bool)
    requires GatewaysOutcome(mid, end, live, here) && (overall ==> here)
    ensures GatewaysOutcome(mid, end, live, overall)
  {
    hide NewestSurvives, ProxiesConverged;
  }

  lemma GatewaysDone(start: Nodes, mid: Nodes, end: Nodes, controller: string, version: string, live: set<string>,
                     id: string, gateways: seq<GatewayInstance>, a: Span, b: Span, flawless: bool)
    requires NothingNeededIsLost(start, mid, controller, live) && GatewaysOutcome(mid, end, live, flawless)
    requires Touches(start, mid, IngressController, HostsOf(start, IngressController) + {controller})
    requires ProxiesUntouched(start, mid) && a.clock == b.clock && a.first <= a.last == b.first <= b.last
    requires NamedAs(start, mid, IngressController, controller, id) && GatewaysNamed(mid, end, gateways)
    requires flawless ==> ExactlyOne(mid, IngressController, controller) && OnlyHost(mid, IngressController, controller)
    requires flawless ==> Shows(mid, IngressController, controller, version, a) && GatewaysShown(end, gateways, b)
    ensures NothingNeededIsLost(start, end, controller, live)
    ensures NamedAs(start, end, IngressController, controller, id) && GatewaysNamed(start, end, gateways)
    ensures flawless ==> Converged(end, controller, live)
    ensures flawless ==>
              Shows(end, IngressController, controller, version, Span(a.clock, a.first, b.last))
              && GatewaysShown(end, gateways, Span(a.clock, a.first, b.last))
  {
    hide NothingNeededIsLost, GatewaysOutcome, Touches, ProxiesUntouched, NamedAs, GatewaysNamed, Shows, GatewaysShown;
    hide ExactlyOne, OnlyHost, Converged, HostsOf;
    var span := Span(a.clock, a.first, b.last);
    AllDone(start, mid, end, controller, live, flawless);
    ControllerKept(start, mid, end, controller, version, live, id, a, span, flawless);
    ProxiesNamed(start, mid, end, gateways);
    if flawless {
      LaterShown(end, gateways, b, span);
    }
  }

  /** ListAllNodes, in no particular order. */
  method ListAllNodes(nodes: Nodes) returns (items: seq<Item>)
    ensures Listing(items, nodes)
  {
    items := [];
    var rest := nodes.Keys;
    while rest != {}
      invariant rest <= nodes.Keys && DistinctIds(items) && ItemIds(items) == nodes.Keys - rest
      invariant forall it :: it in items ==> it.id in nodes && nodes[it.id] == it.node
      decreases rest
    {
      var id :| id in rest;
      assert forall it :: it in items ==> it.id in ItemIds(items);
      ghost var before := items;
      items := items + [Item(id, nodes[id])];
      assert ItemIds(items) == ItemIds(before) + {id};
      rest := rest - {id};
    }
  }

  lemma NothingDone(start: Nodes, controller: string, live: set<string>)
    ensures NothingNeededIsLost(start, start, controller, live)
  {
    SurvivesUntouched(start, IngressController, controller);
    forall h | h in live ensures NewestSurvives(start, start, KongProxy, h) {
      SurvivesUntouched(start, KongProxy, h);
    }
  }

  /** Some node of a host has the latest ping. */
  lemma SurvivesUntouched(start: Nodes, kind: NodeType, host: string)
    ensures NewestSurvives(start, start, kind, host)
  {
    var ids := Ids(start, kind, host);
    if ids != {} {
      var id := Newest(start, ids);
    }
  }

  lemma {:induction false} Newest(start: Nodes, ids: set<string>) returns (id: string)
    requires ids != {} && ids <= start.Keys
    ensures id in ids && forall j :: j in ids ==> start[j].lastPing <= start[id].lastPing
    decreases |ids|
  {
    id :| id in ids;
    var others := ids - {id};
    if others != {} {
      var best := Newest(start, others);
      if start[best].lastPing > start[id].lastPing {
        id := best;
      }
    }
  }

  lemma ConvergedParts(start: Nodes, controller: string, live: set<string>)
    ensures Converged(start, controller, live) <==>
              ExactlyOne(start, IngressController, controller) && OnlyHost(start, IngressController, controller)
                && ProxiesConverged(start, live)
  {
    hide ExactlyOne;
  }

  /** The controller's own update leaves the proxies alone. */
  lemma ProxiesKept(start: Nodes, mid: Nodes, hosts: set<string>, h: string)
    requires Touches(start, mid, IngressController, hosts)
    ensures Ids(mid, KongProxy, h) == Ids(start, KongProxy, h)
    ensures forall id :: id in Ids(start, KongProxy, h) ==> id in mid && mid[id] == start[id]
    ensures NewestSurvives(start, mid, KongProxy, h)
  {
    assert Ids(mid, KongProxy, h) == Ids(start, KongProxy, h);
    hide Touches;
    SurvivesUntouched(start, KongProxy, h);
  }

  lemma KICDone(start: Nodes, mid: Nodes, existing: seq<Item>, controller: string, live: set<string>)
    requires Listing(existing, start) && NewestSurvives(start, mid, IngressController, controller)
    requires Touches(start, mid, IngressController, HostsOf(start, IngressController) + {controller})
    ensures NothingNeededIsLost(start, mid, controller, live)
    ensures ProxiesListed(existing, mid)
    ensures ProxiesConverged(start, live) ==> ProxiesConverged(mid, live)
  {
    hide NewestSurvives, ListsHost, ItemsFor, ProxiesConverged, HostsOf, Listing, Ids;
    var hosts := HostsOf(start, IngressController) + {controller};
    forall h
      ensures NewestSurvives(start, mid, KongProxy, h) && ListsHost(ItemsFor(existing, KongProxy, h), mid, KongProxy, h)
    {
      hide Touches;
      ProxiesKept(start, mid, hosts, h);
      ItemsForLists(existing, start, KongProxy, h);
      ListingKept(ItemsFor(existing, KongProxy, h), start, mid, h);
    }
    ConvergedKept(start, mid, hosts, live);
  }

  lemma ListingKept(ns: seq<Item>, start: Nodes, mid: Nodes, h: string)
    requires ListsHost(ns, start, KongProxy, h) && Ids(mid, KongProxy, h) == Ids(start, KongProxy, h)
    requires forall id :: id in Ids(start, KongProxy, h) ==> id in mid && mid[id] == start[id]
    ensures ListsHost(ns, mid, KongProxy, h)
  {
    assert forall it :: it in ns ==> it.id in ItemIds(ns);
  }

  lemma ConvergedKept(start: Nodes, mid: Nodes, hosts: set<string>, live: set<string>)
    requires Touches(start, mid, IngressController, hosts)
    ensures ProxiesConverged(start, live) ==> ProxiesConverged(mid, live)
  {
    hide NewestSurvives;
    forall h ensures ExactlyOne(start, KongProxy, h) ==> ExactlyOne(mid, KongProxy, h) {
      ProxiesKept(start, mid, hosts, h);
    }
    hide ExactlyOne;
  }

  lemma AllDone(start: Nodes, mid: Nodes, end: Nodes, controller: string, live: set<string>, flawless: bool)
    requires NothingNeededIsLost(start, mid, controller, live) && GatewaysOutcome(mid, end, live, flawless)
    requires Touches(start, mid, IngressController, HostsOf(start, IngressController) + {controller})
    requires flawless ==> ExactlyOne(mid, IngressController, controller) && OnlyHost(mid, IngressController, controller)
    ensures NothingNeededIsLost(start, end, controller, live)
    ensures flawless ==> Converged(end, controller, live)
  {
    assert Ids(end, IngressController, controller) == Ids(mid, IngressController, controller) by {
      hide NewestSurvives, ExactlyOne, Touches;
    }
    forall h | h in live ensures NewestSurvives(start, end, KongProxy, h) {
      ProxySurvives(start, mid, end, controller, h);
    }
    hide Touches, HostsOf;
    assert NewestSurvives(start, end, IngressController, controller) by {
      hide ProxiesConverged, ExactlyOne;
    }
    assert flawless ==> ExactlyOne(end, IngressController, controller);
    hide NewestSurvives, ExactlyOne, Ids;
    if flawless {
      ConvergedParts(end, controller, live);
    }
  }

  /** The proxy nodes are what they were. */
  ghost predicate ProxiesUntouched(start: Nodes, end: Nodes) {
    forall id :: ((id in start && start[id].kind == KongProxy) || (id in end && end[id].kind == KongProxy)) ==>
      id in start && id in end && end[id] == start[id]
  }

  lemma NothingNamed(start: Nodes, controller: string, id: string, gateways: seq<GatewayInstance>)
    ensures NamedAs(start, start, IngressController, controller, id)
    ensures GatewaysNamed(start, start, gateways) && ProxiesUntouched(start, start)
  {
  }

  lemma KICLeavesProxies(start: Nodes, mid: Nodes, hosts: set<string>, gateways: seq<GatewayInstance>)
    requires Touches(start, mid, IngressController, hosts)
    ensures ProxiesUntouched(start, mid) && GatewaysNamed(start, mid, gateways)
  {
    forall g | g in gateways ensures NamedAs(start, mid, KongProxy, g.hostname, g.nodeID) {
      hide Touches;
      ProxiesKept(start, mid, hosts, g.hostname);
    }
  }

  lemma ProxiesNamed(start: Nodes, mid: Nodes, end: Nodes, gateways: seq<GatewayInstance>)
    requires ProxiesUntouched(start, mid) && GatewaysNamed(mid, end, gateways)
    ensures GatewaysNamed(start, end, gateways)
  {
    forall g | g in gateways ensures Ids(mid, KongProxy, g.hostname) == Ids(start, KongProxy, g.hostname) {
    }
  }

  lemma LaterShown(nodes: Nodes, gateways: seq<GatewayInstance>, a: Span, b: Span)
    requires GatewaysShown(nodes, gateways, a) && a.Within(b)
    ensures GatewaysShown(nodes, gateways, b)
  {
    forall g | g in gateways ensures Shows(nodes, KongProxy, g.hostname, g.version, b) {
      ShowsWithin(nodes, KongProxy, g.hostname, g.version, a, b);
    }
  }

  lemma ControllerKept(start: Nodes, mid: Nodes, end: Nodes, controller: string, version: string, live: set<string>,
                       id: string, a: Span, b: Span, flawless: bool)
    requires GatewaysOutcome(mid, end, live, flawless) && a.Within(b)
    ensures Shows(mid, IngressController, controller, version, a) ==>
              Shows(end, IngressController, controller, version, b)
    ensures NamedAs(start, mid, IngressController, controller, id) ==>
              NamedAs(start, end, IngressController, controller, id)
  {
    hide NewestSurvives, ProxiesConverged;
    assert Ids(end, IngressController, controller) == Ids(mid, IngressController, controller);
    if Shows(mid, IngressController, controller, version, a) {
      ShowsWithin(mid, IngressController, controller, version, a, b);
    }
  }

  lemma ProxySurvives(start: Nodes, mid: Nodes, end: Nodes, controller: string, h: string)
    requires Touches(start, mid, IngressController, HostsOf(start, IngressController) + {controller})
    requires NewestSurvives(mid, end, KongProxy, h)
    ensures NewestSurvives(start, end, KongProxy, h)
  {
    assert Ids(mid, KongProxy, h) == Ids(start, KongProxy, h);
    SurvivesFrom(start, mid, end, KongProxy, h);
  }
}
