/** The query builders for accounts and account groups (account_query.go and accountgroup_query.go under
    sub2api/backend/ent): running one executes its edge queries in bulk, attaches their nodes on the heap,
    and leaves a filter behind on each edge query. */
module EagerLoad {
  import opened AccountFields
  import opened Entities
  import opened Joins
  import opened Loaders
  import opened NestedLoop
  import opened QueryModel
  import opened Wrappers

  /** No groups query in the tree has been run before. */
  predicate Unused(q: AccountQ)
    decreases q
  {
    (q.groups.Some? ==> q.groups.value.joins == []) && (q.links.Some? ==> UnusedBelow(q.links.value))
  }

  predicate UnusedBelow(q: LinkQ)
    decreases q
  {
    q.account.Some? ==> Unused(q.account.value)
  }

  // ---------------------------------------------------------------- what child queries return

  lemma RunIgnoresOwnPreds(db: DB, q: AccountQ, p: seq<AccountRow -> bool>, preds: seq<AccountRow -> bool>)
    ensures RunAccounts(db, q.(preds := p), preds) == RunAccounts(db, q, preds)
    ensures AfterAccounts(db, q.(preds := p), preds) == AfterAccounts(db, q, preds)
  {
    assert forall rows :: ProxyKeys(q.(preds := p), rows) == ProxyKeys(q, rows);
  }

  lemma RunIgnoresOwnFields(db: DB, q: LinkQ, p: seq<LinkRow -> bool>, f: seq<LinkField>,
                            preds: seq<LinkRow -> bool>, fields: seq<LinkField>)
    ensures RunLinks(db, q.(preds := p, fields := f), preds, fields) == RunLinks(db, q, preds, fields)
    ensures AfterLinks(db, q.(preds := p, fields := f), preds, fields) == AfterLinks(db, q, preds, fields)
  {
  }

  /** The join only returns rows for the parents that were asked for. */
  lemma {:induction false} PairsAsked(db: DB, q: GroupQ, ids: seq<int>)
    ensures forall p <- PairsFor(db, q, ids) :: p.0 in ids
  {
    JoinAllGroups(db.groups, db.links, q.preds, ids);
    SliceWhole(JoinAll(db.groups, db.links, q.preds, ids), q.window);
  }

  lemma {:induction false} ProxiesAsked(db: DB, preds: seq<ProxyRow -> bool>, ids: seq<int>, w: Window)
    ensures forall r <- Fetch(db.proxies, preds + [InProxies(ids)], w) :: r.id in ids
  {
    SelectMembers(db.proxies, preds + [InProxies(ids)]);
    SliceWhole(Select(db.proxies, preds + [InProxies(ids)]), w);
    forall r | r in db.proxies
      ensures Matches(preds + [InProxies(ids)], r) ==> r.id in ids
    {
      MatchesSnoc(preds, InProxies(ids), r);
    }
  }

  lemma {:induction false} AccountsAsked(db: DB, q: AccountQ, ids: seq<int>)
    ensures forall t <- RunAccounts(db, q, q.preds + [InAccounts(ids)]) :: t.id in ids
  {
    var preds := q.preds + [InAccounts(ids)];
    var rows := Fetch(db.accounts, preds, q.window);
    SelectMembers(db.accounts, preds);
    SliceWhole(Select(db.accounts, preds), q.window);
    forall i | 0 <= i < |rows|
      ensures rows[i].id in ids
    {
      assert rows[i] in rows;
      MatchesSnoc(q.preds, InAccounts(ids), rows[i]);
    }
  }

  /** The links query returns its foreign key, whatever columns were selected, and it is a parent's ID. */
  lemma {:induction false} LinksAsked(db: DB, q: LinkQ, ids: seq<int>)
    ensures forall t <- RunLinks(db, q, q.preds + [InLinks(ids)], WithAccountID(q.fields)) :: t.data.accountId in ids
  {
    var preds := q.preds + [InLinks(ids)];
    var rows := Fetch(db.links, preds, q.window);
    SelectedLinks(db, q, ids);
    SliceWhole(Select(db.links, preds), q.window);
    forall i | 0 <= i < |rows|
      ensures rows[i].accountId in ids
    {
      assert rows[i] in rows;
    }
  }

  lemma {:induction false} ShownWithKey(ns: seq<AccountGroup>, ts: seq<LinkTree>, S: set<object>, k: int)
    requires ShowsLinks(ns, ts, S)
    ensures LinkNodeKeys(ns) == LinkKeys(ts)
    ensures ShowsLinks(WithKey(LinkNodeKeys(ns), ns, k), WithKey(LinkKeys(ts), ts, k), S)
    decreases |ns|
  {
    if ns != [] {
      var n := |ns| - 1;
      assert ShowsLinks(ns[..n], ts[..n], S);
      ShownWithKey(ns[..n], ts[..n], S, k);
      assert LinkNodeKeys(ns)[..n] == LinkNodeKeys(ns[..n]) && LinkKeys(ts)[..n] == LinkKeys(ts[..n]);
    }
  }

  lemma {:induction false} ShownLast(ns: seq<Account>, ts: seq<AccountTree>, S: set<object>, k: int)
    requires ShowsAccounts(ns, ts, S)
    ensures Ids(ns) == TreeIds(ts)
    ensures LastWithKey(TreeIds(ts), ts, k) == None <==> LastAccount(ns, k) == null
    ensures LastAccount(ns, k) != null ==> ShowsAccount(LastAccount(ns, k), LastWithKey(TreeIds(ts), ts, k).value, S)
    decreases |ns|
  {
    if ns != [] {
      var n := |ns| - 1;
      assert ShowsAccounts(ns[..n], ts[..n], S);
      ShownLast(ns[..n], ts[..n], S, k);
      assert Ids(ns)[..n] == Ids(ns[..n]) && TreeIds(ts)[..n] == TreeIds(ts[..n]);
    }
  }

  lemma {:induction false} LastProxyShown(ns: seq<Proxy>, rows: seq<ProxyRow>, key: Option<int>)
    requires |ns| == |rows| && forall i :: 0 <= i < |ns| ==> ns[i].row == rows[i]
    ensures ProxyEdge(key, rows) == if LastProxy(ns, key) == null then NotFound else Found(LastProxy(ns, key).row)
    decreases |ns|
  {
    if ns != [] {
      var n := |ns| - 1;
      LastProxyShown(ns[..n], rows[..n], key);
      assert ProxyNodeIds(ns)[..n] == ProxyNodeIds(ns[..n]) && ProxyIds(rows)[..n] == ProxyIds(rows[..n]);
    }
  }

  // ---------------------------------------------------------------- the builders

  class GroupQuery {
    var predicates: seq<GroupRow -> bool>
    var joins: seq<seq<int>>
    const window: Window

    constructor (predicates: seq<GroupRow -> bool>, window: Window)
      ensures Value() == GroupQ(predicates, [], window)
    {
      this.predicates, joins, this.window := predicates, [], window;
    }

    function Value(): GroupQ
      reads this
    {
      GroupQ(predicates, joins, window)
    }
  }

  class ProxyQuery {
    var predicates: seq<ProxyRow -> bool>
    const window: Window

    constructor (predicates: seq<ProxyRow -> bool>, window: Window)
      ensures Value() == ProxyQ(predicates, window)
    {
      this.predicates, this.window := predicates, window;
    }

    function Value(): ProxyQ
      reads this
    {
      ProxyQ(predicates, window)
    }

    method All(db: DB) returns (nodes: seq<Proxy>)
      ensures |nodes| == |Fetch(db.proxies, predicates, window)|
      ensures forall i :: 0 <= i < |nodes| ==> nodes[i].row == Fetch(db.proxies, predicates, window)[i]
    {
      var rows := Fetch(db.proxies, predicates, window);
      nodes := [];
      for i := 0 to |rows|
        invariant |nodes| == i && forall k :: 0 <= k < i ==> nodes[k].row == rows[k]
      {
        var n := new Proxy(rows[i]);
        nodes := nodes + [n];
      }
    }
  }

  class AccountQuery {
    var predicates: seq<AccountRow -> bool>
    const fields: seq<Field>
    const window: Window
    const withGroups: GroupQuery?
    const withProxy: ProxyQuery?
    const withAccountGroups: AccountGroupQuery?
    /** This query and all edge queries below it. */
    ghost const Repr: set<object>

    /** The edge queries form a tree of separate objects. */
    ghost predicate Valid()
      decreases Repr
    {
      && this in Repr
      && (withGroups != null ==> withGroups in Repr)
      && (withProxy != null ==> withProxy in Repr)
      && (withAccountGroups != null ==>
            && withAccountGroups in Repr && withAccountGroups.Repr <= Repr
            && this !in withAccountGroups.Repr
            && (withGroups != null ==> withGroups !in withAccountGroups.Repr)
            && (withProxy != null ==> withProxy !in withAccountGroups.Repr)
            && withAccountGroups.Valid())
    }

    ghost function Value(): AccountQ
      requires Valid()
      reads this, Repr
      decreases Repr
    {
      AccountQ(predicates, fields, window,
               if withGroups != null then Some(withGroups.Value()) else None,
               if withProxy != null then Some(withProxy.Value()) else None,
               if withAccountGroups != null then Some(withAccountGroups.Value()) else None)
    }

    constructor (predicates: seq<AccountRow -> bool>, fields: seq<Field>, window: Window,
                 withGroups: GroupQuery?, withProxy: ProxyQuery?, withAccountGroups: AccountGroupQuery?)
      requires withAccountGroups != null ==>
        && withAccountGroups.Valid()
        && (withGroups != null ==> withGroups !in withAccountGroups.Repr)
        && (withProxy != null ==> withProxy !in withAccountGroups.Repr)
      ensures Valid()
      ensures Repr == {this} + (if withGroups != null then {withGroups} else {}) + (if withProxy != null then {withProxy} else {})
                      + (if withAccountGroups != null then withAccountGroups.Repr else {})
      ensures Value() == AccountQ(predicates, fields, window,
        if withGroups != null then Some(withGroups.Value()) else None,
        if withProxy != null then Some(withProxy.Value()) else None,
        if withAccountGroups != null then Some(withAccountGroups.Value()) else None)
    {
      this.predicates, this.fields, this.window := predicates, fields, window;
      this.withGroups, this.withProxy, this.withAccountGroups := withGroups, withProxy, withAccountGroups;
      ghost var below: set<object> := {};
      if withGroups != null {
        below := below + {withGroups};
      }
      if withProxy != null {
        below := below + {withProxy};
      }
      if withAccountGroups != null {
        below := below + withAccountGroups.Repr;
      }
      this.Repr := {this} + below;
    }

    /** `Where(account.IDIn(...))`. */
    method Restrict(ids: seq<int>)
      requires Valid()
      modifies this
      ensures predicates == old(predicates) + [InAccounts(ids)]
      ensures Value() == old(Value()).(preds := predicates)
    {
      predicates := predicates + [InAccounts(ids)];
    }

    /** The rows of the query as nodes, with no edge loaded yet. */
    method Scan(db: DB) returns (nodes: seq<Account>)
      ensures Distinct(nodes)
      ensures |nodes| == |Fetch(db.accounts, predicates, window)|
      ensures forall i :: 0 <= i < |nodes| ==> fresh(nodes[i]) && Blank(nodes[i], Fetch(db.accounts, predicates, window)[i])
    {
      var rows := Fetch(db.accounts, predicates, window);
      nodes := [];
      for i := 0 to |rows|
        invariant |nodes| == i && Distinct(nodes)
        invariant forall k :: 0 <= k < i ==> fresh(nodes[k]) && Blank(nodes[k], rows[k])
      {
        var node := new Account(rows[i].id, Seen(rows[i].fields, fields, withProxy != null),
                                withGroups != null, withProxy != null, withAccountGroups != null);
        nodes := nodes + [node];
      }
    }

    /** A node that was just scanned from a row. */
    ghost predicate Blank(a: Account, r: AccountRow)
      reads a
    {
      && Shell(a, r)
      && a.groups == None && a.proxy == null && a.links == None
    }

    ghost predicate Shell(a: Account, r: AccountRow) {
      && a.id == r.id && a.columns == Seen(r.fields, fields, withProxy != null)
      && a.groupsLoaded == (withGroups != null) && a.proxyLoaded == (withProxy != null)
      && a.linksLoaded == (withAccountGroups != null)
    }

    /** `All`, which runs `sqlAll`: the returned nodes show the trees of the run, on fresh objects, and the
        query and its edge queries are left as `AfterAccounts` says. */
    method All(db: DB) returns (nodes: seq<Account>, ghost S: set<object>)
      requires Valid() && Unused(Value())
      modifies Repr
      ensures fresh(S) && Distinct(nodes)
      ensures Value() == AfterAccounts(db, old(Value()), old(predicates))
      ensures ShowsAccounts(nodes, RunAccounts(db, old(Value()), old(predicates)), S)
      decreases Repr, 2
    {
      ghost var q := Value();
      ghost var rows := Fetch(db.accounts, predicates, window);
      nodes := Scan(db);
      S := set a | a in nodes;
      if |nodes| == 0 {
        return;
      }
      assert Ids(nodes) == AccountIds(rows) && KeysOf(nodes) == ProxyKeys(q, rows);
      ghost var T := Attach(db, q, nodes);
      S := S + T;
      LeftBehind(db, q, nodes);
      forall i | 0 <= i < |nodes|
        ensures ShowsAccount(nodes[i], RunAccounts(db, q, q.preds)[i], S)
      {
        Assembled(db, q, rows, nodes, i, T, S);
      }
    }

    /** `All` after `Where(account.IDIn(...))`. */
    method AllOf(db: DB, ids: seq<int>) returns (nodes: seq<Account>, ghost S: set<object>)
      requires Valid() && Unused(Value())
      modifies Repr
      ensures fresh(S) && Distinct(nodes)
      ensures
        var q := old(Value());
        && Value() == AfterAccounts(db, q, q.preds + [InAccounts(ids)])
        && ShowsAccounts(nodes, RunAccounts(db, q, q.preds + [InAccounts(ids)]), S)
      decreases Repr, 3
    {
      Restrict(ids);
      RunIgnoresOwnPreds(db, old(Value()), predicates, predicates);
      nodes, S := All(db);
    }

    /** The edge queries after the loaders have run. */
    ghost predicate GroupsLeft(q: AccountQ, nodes: seq<Account>)
      reads if withGroups != null then {withGroups} else {}
    {
      if withGroups == null then q.groups == None
      else q.groups.Some? && withGroups.Value() == q.groups.value.(joins := q.groups.value.joins + [Ids(nodes)])
    }

    ghost predicate ProxyLeft(q: AccountQ, nodes: seq<Account>)
      reads if withProxy != null then {withProxy} else {}
    {
      if withProxy == null then q.proxy == None
      else
        var keys := FirstKeys(KeysOf(nodes));
        q.proxy.Some? && withProxy.Value() ==
          if keys == [] then q.proxy.value else q.proxy.value.(preds := q.proxy.value.preds + [InProxies(keys)])
    }

    ghost predicate LinksLeft(db: DB, q: AccountQ, nodes: seq<Account>)
      requires Valid()
      reads if withAccountGroups != null then {withAccountGroups} + withAccountGroups.Repr else {}
    {
      if withAccountGroups == null then q.links == None
      else
        && q.links.Some?
        && withAccountGroups.Value() ==
           AfterLinks(db, q.links.value, q.links.value.preds + [InLinks(Ids(nodes))], WithAccountID(q.links.value.fields))
    }

    lemma LeftBehind(db: DB, q: AccountQ, nodes: seq<Account>)
      requires Valid() && GroupsLeft(q, nodes) && ProxyLeft(q, nodes) && LinksLeft(db, q, nodes)
      requires predicates == q.preds && fields == q.fields && window == q.window
      requires var rows := Fetch(db.accounts, q.preds, q.window);
        rows != [] && Ids(nodes) == AccountIds(rows) && KeysOf(nodes) == ProxyKeys(q, rows)
      ensures Value() == AfterAccounts(db, q, q.preds)
    {
    }

    ghost predicate GroupsAttached(db: DB, q: AccountQ, nodes: seq<Account>)
      reads nodes`groups
    {
      q.groups.Some? ==> forall i :: 0 <= i < |nodes| ==>
        nodes[i].groups.Some? && GroupRows(nodes[i].groups.value) == GroupsEdge(Ids(nodes), i, PairsFor(db, q.groups.value, Ids(nodes)))
    }

    ghost predicate ProxyAttached(db: DB, q: AccountQ, nodes: seq<Account>)
      reads nodes`proxy
    {
      forall i :: 0 <= i < |nodes| ==>
        if q.proxy.None? then nodes[i].proxy == null
        else ProxyEdge(KeysOf(nodes)[i],
                       Fetch(db.proxies, q.proxy.value.preds + [InProxies(FirstKeys(KeysOf(nodes)))], q.proxy.value.window)) ==
             if nodes[i].proxy == null then NotFound else Found(nodes[i].proxy.row)
    }

    ghost function Children(db: DB, q: LinkQ, nodes: seq<Account>): seq<LinkTree> {
      RunLinks(db, q, q.preds + [InLinks(Ids(nodes))], WithAccountID(q.fields))
    }

    ghost predicate LinksAttached(db: DB, q: AccountQ, nodes: seq<Account>, T: set<object>)
      reads nodes`links, T
    {
      q.links.Some? ==> forall i :: 0 <= i < |nodes| ==>
        nodes[i].links.Some? && ShowsLinks(nodes[i].links.value, LinksEdge(Ids(nodes), i, Children(db, q.links.value, nodes)), T)
    }

    /** The edge loaders, one after the other. */
    method Attach(db: DB, ghost q: AccountQ, nodes: seq<Account>) returns (ghost T: set<object>)
      requires Valid() && q == Value() && Unused(q) && Distinct(nodes)
      requires forall a <- nodes :: a !in Repr && a.proxy == null
      modifies Repr, nodes
      ensures fresh(T)
      ensures predicates == old(predicates)
      ensures GroupsAttached(db, q, nodes) && ProxyAttached(db, q, nodes) && LinksAttached(db, q, nodes, T)
      ensures GroupsLeft(q, nodes) && ProxyLeft(q, nodes) && LinksLeft(db, q, nodes)
      decreases Repr, 1
    {
      AttachNear(db, q, nodes);
      T := AttachLinks(db, q, nodes);
    }

    /** The two edges that do not touch the account-group queries. */
    method AttachNear(db: DB, ghost q: AccountQ, nodes: seq<Account>)
      requires Valid() && forall a <- nodes :: a !in Repr
      requires q.groups == if withGroups != null then Some(withGroups.Value()) else None
      requires q.proxy == if withProxy != null then Some(withProxy.Value()) else None
      requires withGroups != null ==> withGroups.joins == []
      requires Distinct(nodes) && forall a <- nodes :: a.proxy == null
      modifies if withGroups != null then {withGroups} else {}
      modifies if withProxy != null then {withProxy} else {}
      modifies nodes`groups, nodes`proxy
      ensures GroupsAttached(db, q, nodes) && ProxyAttached(db, q, nodes) && GroupsLeft(q, nodes) && ProxyLeft(q, nodes)
      ensures withAccountGroups != null ==> withAccountGroups.Value() == old(withAccountGroups.Value())
    {
      AttachGroups(db, q, nodes);
      AttachProxy(db, q, nodes);
    }

    method AttachLinks(db: DB, ghost q: AccountQ, nodes: seq<Account>) returns (ghost T: set<object>)
      requires Valid() && Distinct(nodes) && forall a <- nodes :: a !in Repr
      requires q.links == if withAccountGroups != null then Some(withAccountGroups.Value()) else None
      requires withAccountGroups != null ==> UnusedBelow(withAccountGroups.Value())
      modifies if withAccountGroups != null then withAccountGroups.Repr else {}, nodes`links
      ensures fresh(T) && LinksAttached(db, q, nodes, T) && LinksLeft(db, q, nodes)
      decreases Repr, 0
    {
      T := {};
      if withAccountGroups != null {
        var ignored: Option<int>;
        ignored, T := LoadLinks(db, withAccountGroups, nodes);
      }
    }

    method AttachGroups(db: DB, ghost q: AccountQ, nodes: seq<Account>)
      requires q.groups == if withGroups != null then Some(withGroups.Value()) else None
      requires Distinct(nodes) && (withGroups != null ==> withGroups.joins == [])
      requires Valid() && forall a <- nodes :: a !in Repr
      modifies if withGroups != null then {withGroups} else {}, nodes`groups
      ensures GroupsAttached(db, q, nodes) && GroupsLeft(q, nodes)
      ensures withAccountGroups != null ==> withAccountGroups.Value() == old(withAccountGroups.Value())
    {
      if withGroups != null {
        var _ := LoadGroups(db, withGroups, nodes);
      }
    }

    method AttachProxy(db: DB, ghost q: AccountQ, nodes: seq<Account>)
      requires q.proxy == if withProxy != null then Some(withProxy.Value()) else None
      requires Distinct(nodes) && forall a <- nodes :: a.proxy == null
      requires Valid() && forall a <- nodes :: a !in Repr
      modifies if withProxy != null then {withProxy} else {}, nodes`proxy
      ensures ProxyAttached(db, q, nodes) && ProxyLeft(q, nodes)
      ensures withAccountGroups != null ==> withAccountGroups.Value() == old(withAccountGroups.Value())
    {
      if withProxy != null {
        var _ := LoadProxy(db, withProxy, nodes);
      }
    }

    lemma Assembled(db: DB, q: AccountQ, rows: seq<AccountRow>, nodes: seq<Account>, i: nat, T: set<object>, S: set<object>)
      requires rows == Fetch(db.accounts, q.preds, q.window) && |nodes| == |rows| && i < |rows|
      requires Ids(nodes) == AccountIds(rows) && KeysOf(nodes) == ProxyKeys(q, rows)
      requires q.fields == fields && (q.groups.Some? <==> withGroups != null) && (q.proxy.Some? <==> withProxy != null)
      requires q.links.Some? <==> withAccountGroups != null
      requires Shell(nodes[i], rows[i]) && nodes[i] in S && T <= S
      requires GroupsAttached(db, q, nodes) && ProxyAttached(db, q, nodes) && LinksAttached(db, q, nodes, T)
      ensures ShowsAccount(nodes[i], RunAccounts(db, q, q.preds)[i], S)
    {
      if q.links.Some? {
        var edge := LinksEdge(Ids(nodes), i, Children(db, q.links.value, nodes));
        forall k | 0 <= k < |edge|
          ensures ShowsLink(nodes[i].links.value[k], edge[k], S)
        {
          ShowsLinkIn(nodes[i].links.value[k], edge[k], T, S);
        }
      }
    }
  }

  /** `loadGroups`. The error path is never taken. */
  method LoadGroups(db: DB, query: GroupQuery, nodes: seq<Account>) returns (err: Option<int>)
    requires Distinct(nodes) && query.joins == []
    modifies query, nodes`groups
    ensures err == None
    ensures query.Value() == old(query.Value()).(joins := [Ids(nodes)])
    ensures forall i :: 0 <= i < |nodes| ==>
      && nodes[i].groups.Some?
      && GroupRows(nodes[i].groups.value) == GroupsEdge(Ids(nodes), i, PairsFor(db, old(query.Value()), Ids(nodes)))
  {
    var edgeIDs, byID := InitGroups(nodes);
    query.joins := query.joins + [edgeIDs];
    var pairs := PairsFor(db, query.Value(), edgeIDs);
    PairsAsked(db, query.Value(), edgeIDs);
    var neighbors, nids := ScanJoin(byID, pairs);
    OwnersAreNodes(nodes, byID, pairs, nids);
    err := AssignGroups(nodes, nids, neighbors);
    AllOwned(nids, byID, pairs, neighbors);
    forall i | 0 <= i < |nodes|
      ensures GroupRows(Owned(neighbors, nids, nodes[i])) == GroupsEdge(edgeIDs, i, pairs)
    {
      OwnedIsEdge(nodes, i, byID, pairs, nids, neighbors);
    }
  }

  lemma {:induction false} OwnersAreNodes(nodes: seq<Account>, byID: map<int, Account>, pairs: seq<Pair>, nids: map<int, set<Account>>)
    requires LastNodes(byID, nodes) && (forall p <- pairs :: p.0 in byID) && Owners(nids, byID, pairs)
    ensures forall g <- nids :: forall a <- nids[g] :: a in nodes
  {
    forall k | k in byID
      ensures byID[k] in nodes
    {
      var m := LastPosition(Ids(nodes), k);
      assert nodes[m] == byID[k];
    }
  }

  lemma {:induction false} AllOwned(nids: map<int, set<Account>>, byID: map<int, Account>, pairs: seq<Pair>, neighbors: seq<Group>)
    requires (forall p <- pairs :: p.0 in byID) && Owners(nids, byID, pairs) && GroupRows(neighbors) == FirstGroups(pairs)
    ensures forall n <- neighbors :: n.row.id in nids
  {
    forall i | 0 <= i < |neighbors|
      ensures neighbors[i].row.id in nids
    {
      assert GroupRows(neighbors)[i] in FirstGroups(pairs);
    }
  }

  /** `loadProxy`. */
  method LoadProxy(db: DB, query: ProxyQuery, nodes: seq<Account>) returns (err: Option<int>)
    requires Distinct(nodes) && forall a <- nodes :: a.proxy == null
    modifies query, nodes`proxy
    ensures err == None
    ensures
      var keys := FirstKeys(KeysOf(nodes));
      var q := old(query.Value());
      && query.Value() == (if keys == [] then q else q.(preds := q.preds + [InProxies(keys)]))
      && forall i :: 0 <= i < |nodes| ==>
           ProxyEdge(KeysOf(nodes)[i], Fetch(db.proxies, q.preds + [InProxies(keys)], q.window)) ==
           if nodes[i].proxy == null then NotFound else Found(nodes[i].proxy.row)
  {
    var ids, nodeids := CollectProxyKeys(nodes);
    FirstKeysExact(KeysOf(nodes));
    if |ids| == 0 {
      forall i | 0 <= i < |nodes|
        ensures KeysOf(nodes)[i] == None
      {
        assert KeysOf(nodes)[i] in KeysOf(nodes);
      }
      return None;
    }
    query.predicates := query.predicates + [InProxies(ids)];
    var neighbors := query.All(db);
    ghost var rows := Fetch(db.proxies, query.predicates, query.window);
    ProxiesAsked(db, old(query.predicates), ids, query.window);
    forall j | 0 <= j < |neighbors|
      ensures Some(neighbors[j].row.id) in KeysOf(nodes)
    {
      assert rows[j] in rows;
    }
    err := AssignProxies(nodes, nodeids, neighbors);
    forall i | 0 <= i < |nodes|
      ensures ProxyEdge(KeysOf(nodes)[i], rows) == if nodes[i].proxy == null then NotFound else Found(nodes[i].proxy.row)
    {
      LastProxyShown(neighbors, rows, KeysOf(nodes)[i]);
    }
  }

  /** `loadAccountGroups`. */
  method LoadLinks(db: DB, query: AccountGroupQuery, nodes: seq<Account>) returns (err: Option<int>, ghost S: set<object>)
    requires Distinct(nodes) && query.Valid() && UnusedBelow(query.Value())
    requires forall a <- nodes :: a !in query.Repr
    modifies query.Repr, nodes`links
    ensures err == None && fresh(S)
    ensures
      var q := old(query.Value());
      var preds, fields := q.preds + [InLinks(Ids(nodes))], WithAccountID(q.fields);
      && query.Value() == AfterLinks(db, q, preds, fields)
      && forall i :: 0 <= i < |nodes| ==>
           && nodes[i].links.Some?
           && ShowsLinks(nodes[i].links.value, LinksEdge(Ids(nodes), i, RunLinks(db, q, preds, fields)), S)
    decreases query.Repr, 3
  {
    var fks, nodeids := InitLinks(nodes);
    ghost var q := old(query.Value());
    query.Restrict(fks);
    ghost var preds, fields := query.predicates, query.fields;
    RunIgnoresOwnFields(db, q, preds, fields, preds, fields);
    var neighbors;
    neighbors, S := query.All(db);
    ghost var ts := RunLinks(db, q, preds, fields);
    LinksAsked(db, q, fks);
    ShownKeys(neighbors, ts, S, fks);
    err := AssignLinks(nodes, nodeids, neighbors);
    ReceivedShown(nodes, neighbors, ts, S);
  }

  lemma {:induction false} ShownKeys(ns: seq<AccountGroup>, ts: seq<LinkTree>, S: set<object>, ids: seq<int>)
    requires ShowsLinks(ns, ts, S) && forall t <- ts :: t.data.accountId in ids
    ensures forall n <- ns :: n.data.accountId in ids
  {
    forall j | 0 <= j < |ns|
      ensures ts[j] in ts && ns[j].data == ts[j].data
    {
      assert ShowsLink(ns[j], ts[j], S);
    }
  }

  lemma {:induction false} ReceivedShown(nodes: seq<Account>, ns: seq<AccountGroup>, ts: seq<LinkTree>, S: set<object>)
    requires ShowsLinks(ns, ts, S)
    ensures forall i :: 0 <= i < |nodes| ==> ShowsLinks(Received(nodes, i, ns), LinksEdge(Ids(nodes), i, ts), S)
  {
    forall i | 0 <= i < |nodes|
      ensures ShowsLinks(Received(nodes, i, ns), LinksEdge(Ids(nodes), i, ts), S)
    {
      ShownWithKey(ns, ts, S, nodes[i].id);
    }
  }

  lemma KeyedNodes(nodes: seq<AccountGroup>)
    ensures FirstKeys(OwnersOf(nodes)) == [] <==> nodes == []
  {
    FirstKeysExact(OwnersOf(nodes));
    if nodes != [] {
      assert OwnersOf(nodes)[0] == Some(nodes[0].data.accountId);
      assert nodes[0].data.accountId in FirstKeys(OwnersOf(nodes));
    }
  }

  /** Every link points at the account that its key names among the loaded ones, or at none. */
  ghost predicate OwnersAttached(db: DB, q: AccountQ, nodes: seq<AccountGroup>, S: set<object>)
    reads nodes`account, S
  {
    var owners := RunAccounts(db, q, q.preds + [InAccounts(FirstKeys(OwnersOf(nodes)))]);
    forall i :: 0 <= i < |nodes| ==>
      match LastWithKey(TreeIds(owners), owners, nodes[i].data.accountId)
      case None => nodes[i].account == null
      case Some(t) => nodes[i].account != null && ShowsAccount(nodes[i].account, t, S)
  }

  lemma OwnersIn(db: DB, q: AccountQ, nodes: seq<AccountGroup>, S: set<object>, bigger: set<object>)
    requires OwnersAttached(db, q, nodes, S) && S <= bigger
    ensures OwnersAttached(db, q, nodes, bigger)
  {
    var owners := RunAccounts(db, q, q.preds + [InAccounts(FirstKeys(OwnersOf(nodes)))]);
    forall i | 0 <= i < |nodes| && LastWithKey(TreeIds(owners), owners, nodes[i].data.accountId).Some?
      ensures ShowsAccount(nodes[i].account, LastWithKey(TreeIds(owners), owners, nodes[i].data.accountId).value, bigger)
    {
      ShowsAccountIn(nodes[i].account, LastWithKey(TreeIds(owners), owners, nodes[i].data.accountId).value, S, bigger);
    }
  }

  /** `loadAccount`. */
  method LoadAccount(db: DB, query: AccountQuery, nodes: seq<AccountGroup>) returns (err: Option<int>, ghost S: set<object>)
    requires Distinct(nodes) && query.Valid() && Unused(query.Value())
    requires forall l <- nodes :: l !in query.Repr && l.account == null
    modifies query.Repr, nodes`account
    ensures err == None && fresh(S)
    ensures
      var q := old(query.Value());
      var preds := q.preds + [InAccounts(FirstKeys(OwnersOf(nodes)))];
      query.Value() == if nodes == [] then q else AfterAccounts(db, q, preds)
    ensures OwnersAttached(db, old(query.Value()), nodes, S)
    decreases query.Repr, 4
  {
    S := {};
    var ids, nodeids := CollectAccountKeys(nodes);
    FirstKeysExact(OwnersOf(nodes));
    KeyedNodes(nodes);
    if |ids| == 0 {
      return None, S;
    }
    var neighbors;
    neighbors, S := query.AllOf(db, ids);
    err := AssignOwners(db, old(query.Value()), nodes, nodeids, neighbors, S);
  }

  method AssignOwners(ghost db: DB, ghost q: AccountQ, nodes: seq<AccountGroup>, nodeids: map<int, seq<AccountGroup>>,
                      neighbors: seq<Account>, ghost S: set<object>) returns (err: Option<int>)
    requires Distinct(nodes) && GroupsNodes(nodeids, OwnersOf(nodes), nodes)
    requires forall l <- nodes :: l !in S && l.account == null
    requires ShowsAccounts(neighbors, RunAccounts(db, q, q.preds + [InAccounts(FirstKeys(OwnersOf(nodes)))]), S)
    modifies nodes`account
    ensures err == None && OwnersAttached(db, q, nodes, S)
  {
    ghost var ids := FirstKeys(OwnersOf(nodes));
    FirstKeysExact(OwnersOf(nodes));
    AccountsAsked(db, q, ids);
    ShownIds(neighbors, RunAccounts(db, q, q.preds + [InAccounts(ids)]), S, ids);
    err := AssignAccounts(nodes, nodeids, neighbors);
    AttachedOwners(db, q, nodes, neighbors, S);
  }

  lemma AttachedOwners(db: DB, q: AccountQ, nodes: seq<AccountGroup>, ns: seq<Account>, S: set<object>)
    requires ShowsAccounts(ns, RunAccounts(db, q, q.preds + [InAccounts(FirstKeys(OwnersOf(nodes)))]), S)
    requires forall i :: 0 <= i < |nodes| ==> nodes[i].account == LastAccount(ns, nodes[i].data.accountId)
    ensures OwnersAttached(db, q, nodes, S)
  {
    OwnersShown(ns, RunAccounts(db, q, q.preds + [InAccounts(FirstKeys(OwnersOf(nodes)))]), S);
  }

  lemma {:induction false} ShownIds(ns: seq<Account>, ts: seq<AccountTree>, S: set<object>, ids: seq<int>)
    requires ShowsAccounts(ns, ts, S) && forall t <- ts :: t.id in ids
    ensures forall n <- ns :: n.id in ids
  {
    forall j | 0 <= j < |ns|
      ensures ts[j] in ts && ns[j].id == ts[j].id
    {
      assert ShowsAccount(ns[j], ts[j], S);
    }
  }

  lemma {:induction false} OwnersShown(ns: seq<Account>, ts: seq<AccountTree>, S: set<object>)
    requires ShowsAccounts(ns, ts, S)
    ensures forall k ::
      && (LastWithKey(TreeIds(ts), ts, k) == None <==> LastAccount(ns, k) == null)
      && (LastAccount(ns, k) != null ==> ShowsAccount(LastAccount(ns, k), LastWithKey(TreeIds(ts), ts, k).value, S))
  {
    forall k
      ensures LastWithKey(TreeIds(ts), ts, k) == None <==> LastAccount(ns, k) == null
      ensures LastAccount(ns, k) != null ==> ShowsAccount(LastAccount(ns, k), LastWithKey(TreeIds(ts), ts, k).value, S)
    {
      ShownLast(ns, ts, S, k);
    }
  }

  class AccountGroupQuery {
    var predicates: seq<LinkRow -> bool>
    var fields: seq<LinkField>
    const window: Window
    const withAccount: AccountQuery?
    ghost const Repr: set<object>

    ghost predicate Valid()
      decreases Repr
    {
      && this in Repr
      && (withAccount != null ==>
            withAccount in Repr && withAccount.Repr <= Repr && this !in withAccount.Repr && withAccount.Valid())
    }

    ghost function Value(): LinkQ
      requires Valid()
      reads this, Repr
      decreases Repr
    {
      LinkQ(predicates, fields, window, if withAccount != null then Some(withAccount.Value()) else None)
    }

    constructor (predicates: seq<LinkRow -> bool>, fields: seq<LinkField>, window: Window, withAccount: AccountQuery?)
      requires withAccount != null ==> withAccount.Valid()
      ensures Valid()
      ensures Repr == {this} + (if withAccount != null then withAccount.Repr else {})
      ensures Value() == LinkQ(predicates, fields, window, if withAccount != null then Some(withAccount.Value()) else None)
    {
      this.predicates, this.fields, this.window, this.withAccount := predicates, fields, window, withAccount;
      this.Repr := {this} + (if withAccount != null then withAccount.Repr else {});
    }

    /** What a one-to-many parent adds to its child query: the foreign-key column and the filter. */
    method Restrict(fks: seq<int>)
      requires Valid()
      modifies this
      ensures predicates == old(predicates) + [InLinks(fks)] && fields == WithAccountID(old(fields))
      ensures Value() == old(Value()).(preds := predicates, fields := fields)
    {
      if |fields| > 0 {
        fields := Once(fields, LinkAccountID);
      }
      predicates := predicates + [InLinks(fks)];
    }

    /** `All`, which runs `sqlAll`. */
    method All(db: DB) returns (nodes: seq<AccountGroup>, ghost S: set<object>)
      requires Valid() && UnusedBelow(Value())
      modifies Repr
      ensures fresh(S) && Distinct(nodes)
      ensures Value() == AfterLinks(db, old(Value()), old(predicates), old(fields))
      ensures ShowsLinks(nodes, RunLinks(db, old(Value()), old(predicates), old(fields)), S)
      decreases Repr, 2
    {
      ghost var q := Value();
      ghost var rows := Fetch(db.links, predicates, window);
      nodes := Scan(db);
      S := set l | l in nodes;
      assert OwnersOf(nodes) == OwnerKeys(SeenLinks(rows, fields, withAccount != null));
      ghost var T := Attach(db, q, nodes);
      if q.account.Some? {
        OwnersIn(db, q.account.value, nodes, T, S + T);
      }
      S := S + T;
      AllAssembled(db, q, rows, nodes, S);
    }

    /** The edge loader, which an empty result does not need. */
    method Attach(db: DB, ghost q: LinkQ, nodes: seq<AccountGroup>) returns (ghost T: set<object>)
      requires Valid() && Distinct(nodes) && forall l <- nodes :: l !in Repr && l.account == null
      requires q == Value() && UnusedBelow(q)
      modifies if withAccount != null then withAccount.Repr else {}, nodes`account
      ensures fresh(T)
      ensures q.account.None? ==> forall l <- nodes :: l.account == null
      ensures q.account.Some? ==>
        && OwnersAttached(db, q.account.value, nodes, T)
        && withAccount.Value() ==
           if nodes == [] then q.account.value
           else AfterAccounts(db, q.account.value, q.account.value.preds + [InAccounts(FirstKeys(OwnersOf(nodes)))])
      decreases Repr, 1
    {
      T := {};
      if |nodes| > 0 && withAccount != null {
        var ignored: Option<int>;
        ignored, T := LoadAccount(db, withAccount, nodes);
      }
    }

    lemma AllAssembled(db: DB, q: LinkQ, rows: seq<LinkRow>, nodes: seq<AccountGroup>, S: set<object>)
      requires rows == Fetch(db.links, q.preds, q.window) && |nodes| == |rows| && forall l <- nodes :: l in S
      requires forall k :: 0 <= k < |nodes| ==>
        nodes[k].data == LinkSeen(rows[k], q.fields, q.account.Some?) && nodes[k].accountLoaded == q.account.Some?
      requires q.account.Some? ==> OwnersAttached(db, q.account.value, nodes, S)
      requires q.account.None? ==> forall l <- nodes :: l.account == null
      ensures ShowsLinks(nodes, RunLinks(db, q, q.preds, q.fields), S)
    {
      forall i | 0 <= i < |nodes|
        ensures ShowsLink(nodes[i], RunLinks(db, q, q.preds, q.fields)[i], S)
      {
        Assembled(db, q, rows, nodes, i, S);
      }
    }

    lemma Assembled(db: DB, q: LinkQ, rows: seq<LinkRow>, nodes: seq<AccountGroup>, i: nat, S: set<object>)
      requires rows == Fetch(db.links, q.preds, q.window) && |nodes| == |rows| && i < |rows| && nodes[i] in S
      requires forall k :: 0 <= k < |nodes| ==> nodes[k].data == LinkSeen(rows[k], q.fields, q.account.Some?)
      requires nodes[i].accountLoaded == q.account.Some?
      requires if q.account.Some? then OwnersAttached(db, q.account.value, nodes, S) else nodes[i].account == null
      ensures ShowsLink(nodes[i], RunLinks(db, q, q.preds, q.fields)[i], S)
    {
      assert OwnersOf(nodes) == OwnerKeys(SeenLinks(rows, q.fields, q.account.Some?));
    }

    /** The rows of the query as nodes, with no edge loaded yet. */
    method Scan(db: DB) returns (nodes: seq<AccountGroup>)
      ensures Distinct(nodes)
      ensures |nodes| == |Fetch(db.links, predicates, window)|
      ensures forall i :: 0 <= i < |nodes| ==>
        && fresh(nodes[i]) && nodes[i].account == null && nodes[i].accountLoaded == (withAccount != null)
        && nodes[i].data == LinkSeen(Fetch(db.links, predicates, window)[i], fields, withAccount != null)
    {
      var rows := Fetch(db.links, predicates, window);
      nodes := [];
      for i := 0 to |rows|
        invariant |nodes| == i && Distinct(nodes)
        invariant forall k :: 0 <= k < i ==>
          && fresh(nodes[k]) && nodes[k].account == null && nodes[k].accountLoaded == (withAccount != null)
          && nodes[k].data == LinkSeen(rows[k], fields, withAccount != null)
      {
        var node := new AccountGroup(LinkSeen(rows[i], fields, withAccount != null), withAccount != null);
        nodes := nodes + [node];
      }
    }
  }
}
