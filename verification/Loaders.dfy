/** The loops of the three kinds of loaders, on heap nodes and for any list of neighbours that a child query
    might return (account_query.go and accountgroup_query.go under sub2api/backend/ent). Parents are separate
    objects, but may repeat IDs and foreign keys. */
module Loaders {
  import opened Entities
  import opened Joins
  import opened QueryModel
  import opened Wrappers

  function Ids(nodes: seq<Account>): seq<int> {
    seq(|nodes|, i requires 0 <= i < |nodes| => nodes[i].id)
  }

  /** The nullable foreign keys of the proxy edge. */
  function KeysOf(nodes: seq<Account>): seq<Option<int>> {
    seq(|nodes|, i requires 0 <= i < |nodes| => ProxyKey(nodes[i].columns))
  }

  /** The required foreign keys of the account edge. */
  function OwnersOf(nodes: seq<AccountGroup>): seq<Option<int>> {
    seq(|nodes|, i requires 0 <= i < |nodes| => Some(nodes[i].data.accountId))
  }

  function ProxyNodeIds(ns: seq<Proxy>): seq<int> {
    seq(|ns|, i requires 0 <= i < |ns| => ns[i].row.id)
  }

  function LinkNodeKeys(ns: seq<AccountGroup>): seq<int> {
    seq(|ns|, i requires 0 <= i < |ns| => ns[i].data.accountId)
  }

  lemma TakeOne<T>(s: seq<T>, j: nat)
    requires j < |s|
    ensures s[..j + 1] == s[..j] + [s[j]] && s[..j + 1][..j] == s[..j]
  {
  }

  // ---------------------------------------------------------------- many to one

  /** The node index of a many-to-one loader: for each key, all nodes that have it. */
  ghost predicate GroupsNodes<T>(index: map<int, seq<T>>, keys: seq<Option<int>>, nodes: seq<T>)
    requires |keys| == |nodes|
  {
    && (forall k :: k in index <==> Some(k) in keys)
    && (forall k <- index :: index[k] == WithKey(keys, nodes, Some(k)))
  }

  lemma {:induction false} GroupsNodesSkip<T>(index: map<int, seq<T>>, keys: seq<Option<int>>, nodes: seq<T>, node: T)
    requires |keys| == |nodes| && GroupsNodes(index, keys, nodes)
    ensures GroupsNodes(index, keys + [None], nodes + [node])
  {
    forall k: int
      ensures k in index <==> Some(k) in keys + [None]
    {
      InSnoc(keys, None, Some(k));
    }
    forall k | k in index
      ensures index[k] == WithKey(keys + [None], nodes + [node], Some(k))
    {
      WithKeySnoc(keys, nodes, None, node, Some(k));
    }
  }

  lemma InSnoc<T>(s: seq<T>, x: T, y: T)
    ensures y in s + [x] <==> y in s || y == x
  {
  }

  lemma {:induction false} GroupsNodesAdd<T>(index: map<int, seq<T>>, keys: seq<Option<int>>, nodes: seq<T>, key: int, node: T)
    requires |keys| == |nodes| && GroupsNodes(index, keys, nodes)
    ensures GroupsNodes(index[key := (if key in index then index[key] else []) + [node]], keys + [Some(key)], nodes + [node])
  {
    var grown := index[key := (if key in index then index[key] else []) + [node]];
    forall k: int
      ensures k in grown <==> Some(k) in keys + [Some(key)]
    {
      InSnoc(keys, Some(key), Some(k));
    }
    forall k | k in grown
      ensures grown[k] == WithKey(keys + [Some(key)], nodes + [node], Some(k))
    {
      WithKeySnoc(keys, nodes, Some(key), node, Some(k));
      if k == key && key !in index {
        Absent(index, keys, nodes, key);
      }
    }
  }

  lemma WithKeySnoc<K, T>(keys: seq<K>, xs: seq<T>, key: K, x: T, k: K)
    requires |keys| == |xs|
    ensures WithKey(keys + [key], xs + [x], k) == if key == k then WithKey(keys, xs, k) + [x] else WithKey(keys, xs, k)
  {
    assert (keys + [key])[..|keys|] == keys && (xs + [x])[..|xs|] == xs;
    assert WithKey(keys, xs, k) + [] == WithKey(keys, xs, k);
  }

  lemma Absent<T>(index: map<int, seq<T>>, keys: seq<Option<int>>, nodes: seq<T>, k: int)
    requires |keys| == |nodes| && GroupsNodes(index, keys, nodes) && k !in index
    ensures WithKey(keys, nodes, Some(k)) == []
  {
    NoneWithKey(keys, nodes, Some(k));
  }

  lemma {:induction false} NoneWithKey<T>(keys: seq<Option<int>>, nodes: seq<T>, key: Option<int>)
    requires |keys| == |nodes| && key !in keys
    ensures WithKey(keys, nodes, key) == []
    decreases |nodes|
  {
    if nodes != [] {
      NoneWithKey(keys[..|nodes| - 1], nodes[..|nodes| - 1], key);
    }
  }

  /** The first loop of `loadProxy`. */
  method CollectProxyKeys(nodes: seq<Account>) returns (ids: seq<int>, nodeids: map<int, seq<Account>>)
    ensures ids == FirstKeys(KeysOf(nodes))
    ensures GroupsNodes(nodeids, KeysOf(nodes), nodes)
  {
    ids, nodeids := [], map[];
    ghost var keys := KeysOf(nodes);
    for i := 0 to |nodes|
      invariant ids == FirstKeys(keys[..i])
      invariant GroupsNodes(nodeids, keys[..i], nodes[..i])
    {
      TakeOne(keys, i);
      TakeOne(nodes, i);
      FirstKeysExact(keys[..i]);
      var key := ProxyKey(nodes[i].columns);
      if key.None? {
        GroupsNodesSkip(nodeids, keys[..i], nodes[..i], nodes[i]);
        continue;
      }
      var fk := key.value;
      GroupsNodesAdd(nodeids, keys[..i], nodes[..i], fk, nodes[i]);
      if fk !in nodeids {
        ids := ids + [fk];
      }
      nodeids := nodeids[fk := (if fk in nodeids then nodeids[fk] else []) + [nodes[i]]];
    }
    assert keys[..|nodes|] == keys && nodes[..|nodes|] == nodes;
  }

  /** The neighbour that ends up assigned to a node with the given key: the last one that carries it. */
  ghost function LastProxy(neighbors: seq<Proxy>, key: Option<int>): Proxy? {
    if key.Some? && LastWithKey(ProxyNodeIds(neighbors), neighbors, key.value).Some? then
      LastWithKey(ProxyNodeIds(neighbors), neighbors, key.value).value
    else null
  }

  lemma LastProxySnoc(neighbors: seq<Proxy>, n: Proxy, key: Option<int>)
    ensures LastProxy(neighbors + [n], key) == if key == Some(n.row.id) then n else LastProxy(neighbors, key)
  {
    var all := neighbors + [n];
    assert all[..|neighbors|] == neighbors && ProxyNodeIds(all)[..|neighbors|] == ProxyNodeIds(neighbors);
  }

  /** The second loop of `loadProxy`: fails exactly on a neighbour that was not asked for; otherwise every node
      points at the neighbour its key names, and all nodes that share a key point at the same object. */
  method AssignProxies(nodes: seq<Account>, nodeids: map<int, seq<Account>>, neighbors: seq<Proxy>) returns (unexpected: Option<int>)
    requires Distinct(nodes) && GroupsNodes(nodeids, KeysOf(nodes), nodes)
    requires forall a <- nodes :: a.proxy == null
    modifies nodes`proxy
    ensures unexpected == None <==> forall n <- neighbors :: Some(n.row.id) in KeysOf(nodes)
    ensures unexpected == None ==> forall i :: 0 <= i < |nodes| ==> nodes[i].proxy == LastProxy(neighbors, KeysOf(nodes)[i])
  {
    ghost var keys := KeysOf(nodes);
    for j := 0 to |neighbors|
      invariant forall n <- neighbors[..j] :: Some(n.row.id) in keys
      invariant forall i :: 0 <= i < |nodes| ==> nodes[i].proxy == LastProxy(neighbors[..j], keys[i])
    {
      var n := neighbors[j];
      TakeOne(neighbors, j);
      if n.row.id !in nodeids {
        assert n in neighbors;
        return Some(n.row.id);
      }
      WithKeyMembers(keys, nodes, Some(n.row.id));
      PointAll(nodes, nodeids[n.row.id], n);
      forall i | 0 <= i < |nodes|
        ensures nodes[i].proxy == LastProxy(neighbors[..j + 1], keys[i])
      {
        LastProxySnoc(neighbors[..j], n, keys[i]);
      }
    }
    assert neighbors[..|neighbors|] == neighbors;
    return None;
  }

  method PointAll(ghost nodes: seq<Account>, some: seq<Account>, n: Proxy)
    requires forall a <- some :: a in nodes
    modifies nodes`proxy
    ensures forall a <- nodes :: a.proxy == if a in some then n else old(a.proxy)
  {
    for i := 0 to |some|
      invariant forall a <- nodes :: a.proxy == if a in some[..i] then n else old(a.proxy)
    {
      TakeOne(some, i);
      assert some[i] in nodes;
      some[i].proxy := n;
    }
    assert some[..|some|] == some;
  }

  /** The first loop of `loadAccount`, whose key is never nil. */
  method CollectAccountKeys(nodes: seq<AccountGroup>) returns (ids: seq<int>, nodeids: map<int, seq<AccountGroup>>)
    ensures ids == FirstKeys(OwnersOf(nodes))
    ensures GroupsNodes(nodeids, OwnersOf(nodes), nodes)
  {
    ids, nodeids := [], map[];
    ghost var keys := OwnersOf(nodes);
    for i := 0 to |nodes|
      invariant ids == FirstKeys(keys[..i])
      invariant GroupsNodes(nodeids, keys[..i], nodes[..i])
    {
      TakeOne(keys, i);
      TakeOne(nodes, i);
      FirstKeysExact(keys[..i]);
      var fk := nodes[i].data.accountId;
      GroupsNodesAdd(nodeids, keys[..i], nodes[..i], fk, nodes[i]);
      if fk !in nodeids {
        ids := ids + [fk];
      }
      nodeids := nodeids[fk := (if fk in nodeids then nodeids[fk] else []) + [nodes[i]]];
    }
    assert keys[..|nodes|] == keys && nodes[..|nodes|] == nodes;
  }

  ghost function LastAccount(neighbors: seq<Account>, key: int): Account? {
    if LastWithKey(Ids(neighbors), neighbors, key).Some? then LastWithKey(Ids(neighbors), neighbors, key).value else null
  }

  lemma LastAccountSnoc(neighbors: seq<Account>, n: Account, key: int)
    ensures LastAccount(neighbors + [n], key) == if key == n.id then n else LastAccount(neighbors, key)
  {
    var all := neighbors + [n];
    assert all[..|neighbors|] == neighbors && Ids(all)[..|neighbors|] == Ids(neighbors);
  }

  /** The second loop of `loadAccount`. */
  method AssignAccounts(nodes: seq<AccountGroup>, nodeids: map<int, seq<AccountGroup>>, neighbors: seq<Account>)
    returns (unexpected: Option<int>)
    requires Distinct(nodes) && GroupsNodes(nodeids, OwnersOf(nodes), nodes)
    requires forall l <- nodes :: l.account == null
    modifies nodes`account
    ensures unexpected == None <==> forall n <- neighbors :: Some(n.id) in OwnersOf(nodes)
    ensures unexpected == None ==>
      forall i :: 0 <= i < |nodes| ==> nodes[i].account == LastAccount(neighbors, nodes[i].data.accountId)
  {
    ghost var keys := OwnersOf(nodes);
    for j := 0 to |neighbors|
      invariant forall n <- neighbors[..j] :: Some(n.id) in keys
      invariant forall i :: 0 <= i < |nodes| ==> nodes[i].account == LastAccount(neighbors[..j], nodes[i].data.accountId)
    {
      var n := neighbors[j];
      TakeOne(neighbors, j);
      if n.id !in nodeids {
        assert n in neighbors;
        return Some(n.id);
      }
      WithKeyMembers(keys, nodes, Some(n.id));
      OwnAll(nodes, nodeids[n.id], n);
      forall i | 0 <= i < |nodes|
        ensures nodes[i].account == LastAccount(neighbors[..j + 1], nodes[i].data.accountId)
      {
        assert keys[i] == Some(nodes[i].data.accountId);
        LastAccountSnoc(neighbors[..j], n, nodes[i].data.accountId);
      }
    }
    assert neighbors[..|neighbors|] == neighbors;
    return None;
  }

  method OwnAll(ghost nodes: seq<AccountGroup>, some: seq<AccountGroup>, n: Account)
    requires forall l <- some :: l in nodes
    modifies nodes`account
    ensures forall l <- nodes :: l.account == if l in some then n else old(l.account)
  {
    for i := 0 to |some|
      invariant forall l <- nodes :: l.account == if l in some[..i] then n else old(l.account)
    {
      TakeOne(some, i);
      assert some[i] in nodes;
      some[i].account := n;
    }
    assert some[..|some|] == some;
  }

  // ---------------------------------------------------------------- one to many

  /** The node index of the other two loaders: for each ID, the last node that has it. */
  ghost predicate LastNodes(index: map<int, Account>, nodes: seq<Account>) {
    && (forall k :: k in index <==> k in Ids(nodes))
    && (forall i :: 0 <= i < |nodes| && IsLast(Ids(nodes), i) ==> nodes[i].id in index && index[nodes[i].id] == nodes[i])
  }

  lemma {:induction false} LastNodesSnoc(index: map<int, Account>, nodes: seq<Account>, node: Account)
    requires LastNodes(index, nodes)
    ensures LastNodes(index[node.id := node], nodes + [node])
  {
    var all, n := nodes + [node], |nodes|;
    var ids := Ids(all);
    assert ids == Ids(nodes) + [node.id];
    forall i | 0 <= i < n && IsLast(ids, i)
      ensures IsLast(Ids(nodes), i) && nodes[i].id != node.id
    {
      assert ids[i + 1..] == Ids(nodes)[i + 1..] + [node.id];
    }
  }

  lemma {:induction false} LastPosition(ids: seq<int>, k: int) returns (i: nat)
    requires k in ids
    ensures i < |ids| && ids[i] == k && IsLast(ids, i)
    decreases |ids|
  {
    var n := |ids| - 1;
    if ids[n] == k {
      i := n;
    } else {
      i := LastPosition(ids[..n], k);
      assert ids[i + 1..] == ids[..n][i + 1..] + [ids[n]];
    }
  }

  lemma {:induction false} LastUnique(ids: seq<int>, i: nat, j: nat)
    requires i < |ids| && j < |ids| && ids[i] == ids[j] && IsLast(ids, i) && IsLast(ids, j)
    ensures i == j
  {
    LastMeans(ids, i);
    LastMeans(ids, j);
  }

  lemma LastMeans(ids: seq<int>, i: nat)
    requires i < |ids| && IsLast(ids, i)
    ensures forall m :: i < m < |ids| ==> ids[m] != ids[i]
  {
    assert forall m :: i < m < |ids| ==> ids[m] == ids[i + 1..][m - i - 1];
  }

  /** An index entry is the node at the last position of its ID. */
  lemma {:induction false} LastNodeAt(index: map<int, Account>, nodes: seq<Account>, k: int, i: nat)
    requires LastNodes(index, nodes) && k in index && Distinct(nodes) && i < |nodes|
    ensures index[k] in nodes
    ensures nodes[i] == index[k] <==> nodes[i].id == k && IsLast(Ids(nodes), i)
  {
    var m := LastPosition(Ids(nodes), k);
    assert nodes[m] == index[k];
    if nodes[i].id == k && IsLast(Ids(nodes), i) {
      LastUnique(Ids(nodes), i, m);
    }
  }

  /** The first loop of `loadAccountGroups`, with the `init` callback. */
  method InitLinks(nodes: seq<Account>) returns (fks: seq<int>, nodeids: map<int, Account>)
    modifies nodes`links
    ensures fks == Ids(nodes) && LastNodes(nodeids, nodes)
    ensures forall a <- nodes :: a.links == Some([])
  {
    fks, nodeids := [], map[];
    for i := 0 to |nodes|
      invariant fks == Ids(nodes[..i]) && LastNodes(nodeids, nodes[..i])
      invariant forall a <- nodes[..i] :: a.links == Some([])
    {
      TakeOne(nodes, i);
      LastNodesSnoc(nodeids, nodes[..i], nodes[i]);
      fks := fks + [nodes[i].id];
      nodeids := nodeids[nodes[i].id := nodes[i]];
      nodes[i].links := Some([]);
    }
    assert nodes[..|nodes|] == nodes;
  }

  /** The children that node i receives: those with its ID, if no later node has the same ID. */
  ghost function Received(nodes: seq<Account>, i: nat, children: seq<AccountGroup>): seq<AccountGroup>
    requires i < |nodes|
  {
    if IsLast(Ids(nodes), i) then WithKey(LinkNodeKeys(children), children, nodes[i].id) else []
  }

  lemma ReceivedSnoc(nodes: seq<Account>, i: nat, children: seq<AccountGroup>, c: AccountGroup)
    requires i < |nodes|
    ensures Received(nodes, i, children + [c]) ==
            if IsLast(Ids(nodes), i) && nodes[i].id == c.data.accountId then Received(nodes, i, children) + [c]
            else Received(nodes, i, children)
  {
    assert Received(nodes, i, children) + [] == Received(nodes, i, children);
    var all := children + [c];
    assert all[..|children|] == children && LinkNodeKeys(all)[..|children|] == LinkNodeKeys(children);
  }

  lemma {:induction false} ReceivedStep(nodes: seq<Account>, nodeids: map<int, Account>, children: seq<AccountGroup>, c: AccountGroup)
    requires Distinct(nodes) && LastNodes(nodeids, nodes) && c.data.accountId in nodeids
    ensures nodeids[c.data.accountId] in nodes
    ensures forall i :: 0 <= i < |nodes| ==>
      Received(nodes, i, children + [c]) ==
      if nodes[i] == nodeids[c.data.accountId] then Received(nodes, i, children) + [c] else Received(nodes, i, children)
  {
    var m := LastPosition(Ids(nodes), c.data.accountId);
    LastNodeAt(nodeids, nodes, c.data.accountId, m);
    forall i | 0 <= i < |nodes|
      ensures Received(nodes, i, children + [c]) ==
        if nodes[i] == nodeids[c.data.accountId] then Received(nodes, i, children) + [c] else Received(nodes, i, children)
    {
      LastNodeAt(nodeids, nodes, c.data.accountId, i);
      ReceivedSnoc(nodes, i, children, c);
    }
  }

  /** The elements of a slice; a nil slice has none. */
  function Items<T>(slice: Option<seq<T>>): seq<T> {
    if slice.Some? then slice.value else []
  }

  /** The `assign` callback of the account_groups edge for one child. */
  method Deliver(nodes: seq<Account>, nodeids: map<int, Account>, ghost earlier: seq<AccountGroup>, n: AccountGroup)
    requires Distinct(nodes) && LastNodes(nodeids, nodes) && n.data.accountId in nodeids
    requires forall i :: 0 <= i < |nodes| ==> nodes[i].links == Some(Received(nodes, i, earlier))
    modifies nodes`links
    ensures forall i :: 0 <= i < |nodes| ==> nodes[i].links == Some(Received(nodes, i, earlier + [n]))
  {
    ReceivedStep(nodes, nodeids, earlier, n);
    var node := nodeids[n.data.accountId];
    node.links := Some(Items(node.links) + [n]);
  }

  /** The second loop of `loadAccountGroups`: fails exactly on a child whose key is not the ID of a node;
      otherwise each node has received its children in their order. */
  method AssignLinks(nodes: seq<Account>, nodeids: map<int, Account>, neighbors: seq<AccountGroup>) returns (unexpected: Option<int>)
    requires Distinct(nodes) && LastNodes(nodeids, nodes)
    requires forall a <- nodes :: a.links == Some([])
    modifies nodes`links
    ensures unexpected == None <==> forall n <- neighbors :: n.data.accountId in Ids(nodes)
    ensures unexpected == None ==> forall i :: 0 <= i < |nodes| ==> nodes[i].links == Some(Received(nodes, i, neighbors))
  {
    for j := 0 to |neighbors|
      invariant forall n <- neighbors[..j] :: n.data.accountId in Ids(nodes)
      invariant forall i :: 0 <= i < |nodes| ==> nodes[i].links == Some(Received(nodes, i, neighbors[..j]))
    {
      var n := neighbors[j];
      var fk := n.data.accountId;
      TakeOne(neighbors, j);
      if fk !in nodeids {
        assert n in neighbors;
        return Some(fk);
      }
      Deliver(nodes, nodeids, neighbors[..j], n);
    }
    assert neighbors[..|neighbors|] == neighbors;
    return None;
  }

  // ---------------------------------------------------------------- many to many

  /** The first loop of `loadGroups`, with the `init` callback. */
  method InitGroups(nodes: seq<Account>) returns (edgeIDs: seq<int>, byID: map<int, Account>)
    modifies nodes`groups
    ensures edgeIDs == Ids(nodes) && LastNodes(byID, nodes)
    ensures forall a <- nodes :: a.groups == Some([])
  {
    edgeIDs, byID := [], map[];
    for i := 0 to |nodes|
      invariant edgeIDs == Ids(nodes[..i]) && LastNodes(byID, nodes[..i])
      invariant forall a <- nodes[..i] :: a.groups == Some([])
    {
      TakeOne(nodes, i);
      LastNodesSnoc(byID, nodes[..i], nodes[i]);
      edgeIDs := edgeIDs + [nodes[i].id];
      byID := byID[nodes[i].id := nodes[i]];
      nodes[i].groups := Some([]);
    }
    assert nodes[..|nodes|] == nodes;
  }

  ghost function OwnerSet(byID: map<int, Account>, pairs: seq<Pair>, g: int): set<Account>
    requires forall p <- pairs :: p.0 in byID
  {
    set p | p in pairs && p.1.id == g :: byID[p.0]
  }

  /** The sets of owners that scanning the join collects. */
  ghost predicate Owners(nids: map<int, set<Account>>, byID: map<int, Account>, pairs: seq<Pair>)
    requires forall p <- pairs :: p.0 in byID
  {
    && (forall g :: g in nids <==> HasId(FirstGroups(pairs), g))
    && (forall g <- nids :: nids[g] == OwnerSet(byID, pairs, g))
  }

  lemma {:induction false} OwnersSnoc(nids: map<int, set<Account>>, byID: map<int, Account>, pairs: seq<Pair>, p: Pair)
    requires p.0 in byID && forall q <- pairs :: q.0 in byID
    requires Owners(nids, byID, pairs)
    ensures forall q <- pairs + [p] :: q.0 in byID
    ensures Owners(nids[p.1.id := (if p.1.id in nids then nids[p.1.id] else {}) + {byID[p.0]}], byID, pairs + [p])
  {
    var all := pairs + [p];
    assert all[..|pairs|] == pairs;
    assert forall q :: q in all <==> q in pairs || q == p;
    NestedFirst(pairs);
  }

  lemma {:induction false} NestedFirst(pairs: seq<Pair>)
    ensures forall p <- pairs :: HasId(FirstGroups(pairs), p.1.id)
    decreases |pairs|
  {
    if pairs != [] {
      NestedFirst(pairs[..|pairs| - 1]);
      assert pairs == pairs[..|pairs| - 1] + [pairs[|pairs| - 1]];
    }
  }

  /** The scan of the join rows: a node for the first row of each group, and the set of its owners. */
  method ScanJoin(byID: map<int, Account>, pairs: seq<Pair>) returns (neighbors: seq<Group>, nids: map<int, set<Account>>)
    requires forall p <- pairs :: p.0 in byID
    ensures GroupRows(neighbors) == FirstGroups(pairs)
    ensures Owners(nids, byID, pairs)
  {
    neighbors, nids := [], map[];
    for i := 0 to |pairs|
      invariant forall p <- pairs[..i] :: p.0 in byID
      invariant GroupRows(neighbors) == FirstGroups(pairs[..i])
      invariant Owners(nids, byID, pairs[..i])
    {
      TakeOne(pairs, i);
      OwnersSnoc(nids, byID, pairs[..i], pairs[i]);
      var outValue, inValue := pairs[i].0, pairs[i].1.id;
      if inValue !in nids {
        nids := nids[inValue := {byID[outValue]}];
        var n := new Group(pairs[i].1);
        assert GroupRows(neighbors + [n]) == GroupRows(neighbors) + [n.row];
        neighbors := neighbors + [n];
      } else {
        nids := nids[inValue := nids[inValue] + {byID[outValue]}];
      }
    }
    assert pairs[..|pairs|] == pairs;
  }

  /** The neighbours that node a owns. */
  function Owned(neighbors: seq<Group>, nids: map<int, set<Account>>, a: Account): seq<Group>
    decreases |neighbors|
  {
    if neighbors == [] then []
    else
      var n := neighbors[|neighbors| - 1];
      Owned(neighbors[..|neighbors| - 1], nids, a) + (if n.row.id in nids && a in nids[n.row.id] then [n] else [])
  }

  lemma OwnedSnoc(neighbors: seq<Group>, nids: map<int, set<Account>>, n: Group, a: Account)
    requires n.row.id in nids
    ensures Owned(neighbors + [n], nids, a) ==
            if a in nids[n.row.id] then Owned(neighbors, nids, a) + [n] else Owned(neighbors, nids, a)
  {
    assert Owned(neighbors, nids, a) + [] == Owned(neighbors, nids, a);
    assert (neighbors + [n])[..|neighbors|] == neighbors;
  }

  /** The second loop of `loadGroups`. Owners are taken from a set in no particular order. */
  method AssignGroups(nodes: seq<Account>, nids: map<int, set<Account>>, neighbors: seq<Group>) returns (unexpected: Option<int>)
    requires forall g <- nids :: forall a <- nids[g] :: a in nodes
    requires forall a <- nodes :: a.groups == Some([])
    modifies nodes`groups
    ensures unexpected == None <==> forall n <- neighbors :: n.row.id in nids
    ensures unexpected == None ==> forall a <- nodes :: a.groups == Some(Owned(neighbors, nids, a))
  {
    for j := 0 to |neighbors|
      invariant forall n <- neighbors[..j] :: n.row.id in nids
      invariant forall a <- nodes :: a.groups == Some(Owned(neighbors[..j], nids, a))
    {
      var n := neighbors[j];
      TakeOne(neighbors, j);
      if n.row.id !in nids {
        assert n in neighbors;
        return Some(n.row.id);
      }
      Give(nodes, nids, neighbors[..j], n);
    }
    assert neighbors[..|neighbors|] == neighbors;
    return None;
  }

  method Give(ghost nodes: seq<Account>, nids: map<int, set<Account>>, ghost earlier: seq<Group>, n: Group)
    requires n.row.id in nids && forall a <- nids[n.row.id] :: a in nodes
    requires forall a <- nodes :: a.groups == Some(Owned(earlier, nids, a))
    modifies nodes`groups
    ensures forall a <- nodes :: a.groups == Some(Owned(earlier + [n], nids, a))
  {
    GiveAll(nodes, nids[n.row.id], n);
    forall a | a in nodes
      ensures a.groups == Some(Owned(earlier + [n], nids, a))
    {
      OwnedSnoc(earlier, nids, n, a);
      assert old(a.groups) == Some(Owned(earlier, nids, a));
    }
  }

  /** Ranging over a map whose keys are the owners: Go picks the order, `:|` stands for any choice. */
  method GiveAll(ghost nodes: seq<Account>, owners: set<Account>, n: Group)
    requires forall a <- owners :: a in nodes
    modifies nodes`groups
    ensures forall a <- nodes :: a.groups == (if a in owners then Some(Items(old(a.groups)) + [n]) else old(a.groups))
  {
    var rest := owners;
    while rest != {}
      invariant rest <= owners
      invariant forall a <- nodes ::
        a.groups == (if a in owners - rest then Some(Items(old(a.groups)) + [n]) else old(a.groups))
      decreases rest
    {
      var kn :| kn in rest;
      kn.groups := Some(Items(kn.groups) + [n]);
      rest := rest - {kn};
    }
  }

  /** Ownership in terms of the join rows. */
  lemma {:induction false} OwnedIsEdge(nodes: seq<Account>, i: nat, byID: map<int, Account>, pairs: seq<Pair>,
                                       nids: map<int, set<Account>>, neighbors: seq<Group>)
    requires Distinct(nodes) && i < |nodes| && LastNodes(byID, nodes)
    requires (forall p <- pairs :: p.0 in byID) && Owners(nids, byID, pairs)
    requires forall n <- neighbors :: n.row.id in nids
    ensures GroupRows(Owned(neighbors, nids, nodes[i])) ==
            if IsLast(Ids(nodes), i) then OwnedBy(GroupRows(neighbors), pairs, nodes[i].id) else []
    decreases |neighbors|
  {
    if neighbors != [] {
      var before, n := neighbors[..|neighbors| - 1], neighbors[|neighbors| - 1];
      assert neighbors == before + [n];
      OwnedIsEdge(nodes, i, byID, pairs, nids, before);
      OwnsPaired(nodes, i, byID, pairs, nids, n.row.id);
      OwnedStep(before, n, nids, nodes[i], pairs, IsLast(Ids(nodes), i));
    }
  }

  lemma {:induction false} OwnedStep(before: seq<Group>, n: Group, nids: map<int, set<Account>>, a: Account, pairs: seq<Pair>, last: bool)
    requires n.row.id in nids && (a in nids[n.row.id] <==> last && Paired(pairs, a.id, n.row.id))
    requires GroupRows(Owned(before, nids, a)) == if last then OwnedBy(GroupRows(before), pairs, a.id) else []
    ensures GroupRows(Owned(before + [n], nids, a)) ==
            if last then OwnedBy(GroupRows(before + [n]), pairs, a.id) else []
  {
    OwnedSnoc(before, nids, n, a);
    OwnedBySnoc(GroupRows(before), pairs, n.row, a.id);
    RowsSnoc(before, n);
    RowsSnoc(Owned(before, nids, a), n);
  }

  lemma RowsSnoc(gs: seq<Group>, g: Group)
    ensures GroupRows(gs + [g]) == GroupRows(gs) + [g.row]
  {
  }

  lemma OwnedBySnoc(gs: seq<GroupRow>, pairs: seq<Pair>, g: GroupRow, account: int)
    ensures OwnedBy(gs + [g], pairs, account) ==
            if Paired(pairs, account, g.id) then OwnedBy(gs, pairs, account) + [g] else OwnedBy(gs, pairs, account)
  {
    assert (gs + [g])[..|gs|] == gs;
    assert OwnedBy(gs, pairs, account) + [] == OwnedBy(gs, pairs, account);
  }

  lemma {:induction false} OwnsPaired(nodes: seq<Account>, i: nat, byID: map<int, Account>, pairs: seq<Pair>,
                                      nids: map<int, set<Account>>, g: int)
    requires Distinct(nodes) && i < |nodes| && LastNodes(byID, nodes)
    requires (forall p <- pairs :: p.0 in byID) && Owners(nids, byID, pairs) && g in nids
    ensures nodes[i] in nids[g] <==> IsLast(Ids(nodes), i) && Paired(pairs, nodes[i].id, g)
  {
    forall p | p in pairs
      ensures byID[p.0] == nodes[i] <==> p.0 == nodes[i].id && IsLast(Ids(nodes), i)
    {
      LastNodeAt(byID, nodes, p.0, i);
    }
  }
}
