/** The main results about running account queries on the heap. */
module EagerTheorems {
  import opened EagerLoad
  import opened Entities
  import opened Joins
  import opened NestedLoop
  import opened QueryModel
  import opened Rerun
  import opened WindowLaws
  import opened Wrappers

  /** Running an account query with any finite tree of edge queries: the nodes show, edge by edge and level by
      level, the nested-loop join of the database, exactly when no window of an edge query drops a row. */
  method LoadNested(db: DB, query: AccountQuery) returns (nodes: seq<Account>, ghost S: set<object>)
    requires query.Valid() && Unused(query.Value()) && Keyed(db)
    modifies query.Repr
    ensures fresh(S)
    ensures
      var q := old(query.Value());
      Whole(db, q, q.preds) ==> ShowsAccounts(nodes, AccountTrees(db, q, Fetch(db.accounts, q.preds, q.window)), S)
    ensures
      var q := old(query.Value());
      KeyedEdges(db) && ShowsAccounts(nodes, AccountTrees(db, q, Fetch(db.accounts, q.preds, q.window)), S) ==> Whole(db, q, q.preds)
  {
    ghost var q := query.Value();
    nodes, S := query.All(db);
    ghost var trees := AccountTrees(db, q, Fetch(db.accounts, q.preds, q.window));
    if Whole(db, q, q.preds) {
      BulkIsNested(db, q, q.preds);
    } else if KeyedEdges(db) && ShowsAccounts(nodes, trees, S) {
      ShowOne(nodes, RunAccounts(db, q, q.preds), trees, S);
      WindowsExact(db, q, q.preds);
      assert false;
    }
  }

  lemma {:induction false} ShowOne(nodes: seq<Account>, ts: seq<AccountTree>, us: seq<AccountTree>, S: set<object>)
    requires ShowsAccounts(nodes, ts, S) && ShowsAccounts(nodes, us, S)
    ensures ts == us
  {
    forall i | 0 <= i < |ts|
      ensures ts[i] == us[i]
    {
      ShowsOne(nodes[i], ts[i], us[i], S);
    }
  }

  /** The query that asks for the groups, the proxy, the account groups and, below those, the account again. */
  function EveryEdge(where: seq<AccountRow -> bool>, window: Window): AccountQ {
    AccountQ(where, [], window, Some(GroupQ([], [], EVERYTHING)), Some(ProxyQ([], EVERYTHING)),
             Some(LinkQ([], [], EVERYTHING, Some(AccountQ([], [], EVERYTHING, None, None, None)))))
  }

  /** Building that query with `WithGroups`, `WithProxy`, `WithAccountGroups` and `WithAccount`. */
  method BuildEveryEdge(where: seq<AccountRow -> bool>, window: Window) returns (query: AccountQuery)
    ensures query.Valid() && fresh(query.Repr)
    ensures query.Value() == EveryEdge(where, window)
  {
    var owner := new AccountQuery([], [], EVERYTHING, null, null, null);
    var links := new AccountGroupQuery([], [], EVERYTHING, owner);
    var groups := new GroupQuery([], EVERYTHING);
    var proxy := new ProxyQuery([], EVERYTHING);
    query := new AccountQuery(where, [], window, groups, proxy, links);
  }

  /** Running it: every accessor of every node reports what the tables say, and none that its edge was not loaded. */
  method LoadEveryEdge(db: DB, where: seq<AccountRow -> bool>, window: Window) returns (nodes: seq<Account>, ghost S: set<object>)
    requires Keyed(db)
    ensures fresh(S)
    ensures ShowsAccounts(nodes, AccountTrees(db, EveryEdge(where, window), Fetch(db.accounts, where, window)), S)
    ensures forall a <- nodes :: a.GroupsOrErr().Loaded? && a.ProxyOrErr() != NotLoaded && a.AccountGroupsOrErr().Loaded?
  {
    var query := BuildEveryEdge(where, window);
    UnwindowedWhole(db, EveryEdge(where, window), where);
    nodes, S := LoadNested(db, query);
    AllLoaded(db, EveryEdge(where, window), Fetch(db.accounts, where, window), nodes, S);
  }

  lemma {:induction false} AllLoaded(db: DB, q: AccountQ, rows: seq<AccountRow>, nodes: seq<Account>, S: set<object>)
    requires ShowsAccounts(nodes, AccountTrees(db, q, rows), S) && q.groups.Some? && q.proxy.Some? && q.links.Some?
    ensures forall a <- nodes :: a.GroupsOrErr().Loaded? && a.ProxyOrErr() != NotLoaded && a.AccountGroupsOrErr().Loaded?
  {
    forall i | 0 <= i < |nodes|
      ensures nodes[i].GroupsOrErr().Loaded? && nodes[i].ProxyOrErr() != NotLoaded && nodes[i].AccountGroupsOrErr().Loaded?
    {
      assert ShowsAccount(nodes[i], AccountTrees(db, q, rows)[i], S);
    }
  }

  lemma {:induction false} NoGroupsUnused(q: AccountQ)
    requires NoGroups(q)
    ensures Unused(q)
    decreases q
  {
    if q.links.Some? && q.links.value.account.Some? {
      NoGroupsUnused(q.links.value.account.value);
    }
  }

  // ---------------------------------------------------------------- running again

  /** How many filters the links query and the proxy query carry. */
  function LinkFilters(q: AccountQ): nat {
    if q.links.Some? then |q.links.value.preds| else 0
  }

  function ProxyFilters(q: AccountQ): nat {
    if q.proxy.Some? then |q.proxy.value.preds| else 0
  }

  /** Whether a run adds one: it finds a parent, and for the proxy edge one with a key. */
  predicate AddsLinkFilter(db: DB, q: AccountQ, preds: seq<AccountRow -> bool>) {
    q.links.Some? && Fetch(db.accounts, preds, q.window) != []
  }

  predicate AddsProxyFilter(db: DB, q: AccountQ, preds: seq<AccountRow -> bool>) {
    q.proxy.Some? && exists r <- Fetch(db.accounts, preds, q.window) :: ProxyKey(r.fields).Some?
  }

  /** Each run leaves one more filter on each of the two edge queries that it uses, and a later run uses the
      same ones. */
  lemma {:induction false} FiltersGrow(db: DB, q: AccountQ, preds: seq<AccountRow -> bool>)
    ensures var after := AfterAccounts(db, q, preds);
      && LinkFilters(after) == LinkFilters(q) + (if AddsLinkFilter(db, q, preds) then 1 else 0)
      && ProxyFilters(after) == ProxyFilters(q) + (if AddsProxyFilter(db, q, preds) then 1 else 0)
      && (AddsLinkFilter(db, after, preds) <==> AddsLinkFilter(db, q, preds))
      && (AddsProxyFilter(db, after, preds) <==> AddsProxyFilter(db, q, preds))
  {
    if q.proxy.Some? {
      KeysAsked(q, Fetch(db.accounts, preds, q.window));
    }
  }

  lemma {:induction false} KeysAsked(q: AccountQ, rows: seq<AccountRow>)
    requires q.proxy.Some?
    ensures FirstKeys(ProxyKeys(q, rows)) != [] <==> exists r <- rows :: ProxyKey(r.fields).Some?
  {
    var keys := ProxyKeys(q, rows);
    FirstKeysExact(keys);
    assert forall i :: 0 <= i < |rows| ==> keys[i] == ProxyKey(rows[i].fields) && keys[i] in keys && rows[i] in rows;
    if FirstKeys(keys) != [] {
      assert FirstKeys(keys)[0] in FirstKeys(keys);
      var i :| 0 <= i < |keys| && keys[i] == Some(FirstKeys(keys)[0]);
    }
    if r :| r in rows && ProxyKey(r.fields).Some? {
      var i :| 0 <= i < |rows| && rows[i] == r;
      assert keys[i].value in FirstKeys(keys);
    }
  }

  /** Running a query n more times on an unchanged database: every run shows the trees of the first, although
      n + 1 filters have piled up on the edge queries. */
  method RunAgain(db: DB, query: AccountQuery, n: nat) returns (nodes: seq<Account>, ghost S: set<object>)
    requires query.Valid() && NoGroups(query.Value())
    modifies query.Repr
    ensures NoGroups(query.Value()) && query.Value().preds == old(query.Value()).preds
    ensures ShowsAccounts(nodes, RunAccounts(db, old(query.Value()), old(query.Value()).preds), S)
    ensures RunAccounts(db, query.Value(), query.Value().preds) == RunAccounts(db, old(query.Value()), old(query.Value()).preds)
    ensures Grown(db, old(query.Value()), query.Value(), n + 1)
  {
    ghost var q := query.Value();
    NoGroupsUnused(q);
    nodes, S := query.All(db);
    OneMoreRun(db, q, q, 0);
    for i := 0 to n
      invariant NoGroups(query.Value()) && query.Value().preds == q.preds
      invariant RunAccounts(db, query.Value(), q.preds) == RunAccounts(db, q, q.preds)
      invariant ShowsAccounts(nodes, RunAccounts(db, q, q.preds), S)
      invariant Grown(db, q, query.Value(), i + 1)
    {
      ghost var before := query.Value();
      NoGroupsUnused(before);
      nodes, S := query.All(db);
      OneMoreRun(db, q, before, i + 1);
    }
  }

  /** The filters that n runs of q have left on `now`; the next run would add the same again. */
  ghost predicate Grown(db: DB, q: AccountQ, now: AccountQ, n: nat) {
    && LinkFilters(now) == LinkFilters(q) + (if AddsLinkFilter(db, q, q.preds) then n else 0)
    && ProxyFilters(now) == ProxyFilters(q) + (if AddsProxyFilter(db, q, q.preds) then n else 0)
    && (AddsLinkFilter(db, now, q.preds) <==> AddsLinkFilter(db, q, q.preds))
    && (AddsProxyFilter(db, now, q.preds) <==> AddsProxyFilter(db, q, q.preds))
  }

  lemma {:induction false} OneMoreRun(db: DB, q: AccountQ, now: AccountQ, n: nat)
    requires NoGroups(now) && Grown(db, q, now, n)
    ensures var after := AfterAccounts(db, now, q.preds);
      && NoGroups(after) && after.preds == q.preds && Grown(db, q, after, n + 1)
      && RunAccounts(db, after, q.preds) == RunAccounts(db, now, q.preds)
  {
    AgainAccounts(db, now, q.preds);
    FiltersGrow(db, now, q.preds);
  }

  // ---------------------------------------------------------------- the proxy accessor

  /** After loading, the proxy accessor of a node never reports "not loaded". It reports a proxy exactly when the
      row's `proxy_id` cell holds the ID of a fetched proxy, and then a fetched proxy with that ID; otherwise it
      reports "not found". When the window of the proxy query drops nothing, the fetched proxies with that ID are
      all matching ones. */
  lemma {:induction false} ProxyReported(db: DB, q: AccountQ, preds: seq<AccountRow -> bool>, nodes: seq<Account>,
                                         S: set<object>, i: nat)
    requires q.proxy.Some? && ShowsAccounts(nodes, RunAccounts(db, q, preds), S) && i < |nodes|
    ensures
      var rows := Fetch(db.accounts, preds, q.window);
      var cells, fetched := rows[i].fields, ProxiesFor(db, q, rows);
      && nodes[i].ProxyOrErr() != NotLoaded
      && (nodes[i].ProxyOrErr() == NotFound <==> forall r <- fetched :: !HasProxyID(cells, r.id))
      && (nodes[i].ProxyOrErr().Found? ==>
            HasProxyID(cells, nodes[i].ProxyOrErr().value.row.id) && nodes[i].ProxyOrErr().value.row in fetched)
      && (fetched == AllProxies(db, q, rows) ==> forall r ::
            r in fetched && HasProxyID(cells, r.id) <==>
            r in db.proxies && HasProxyID(cells, r.id) && Matches(q.proxy.value.preds, r))
  {
    var rows := Fetch(db.accounts, preds, q.window);
    var keys, fetched := ProxyKeys(q, rows), ProxiesFor(db, q, rows);
    assert keys[i] == ProxyKey(rows[i].fields);
    assert ShowsAccount(nodes[i], RunAccounts(db, q, preds)[i], S);
    if keys[i].Some? {
      var k := keys[i].value;
      ProxyKeyExact(rows[i].fields, k);
      LastWithKeyExists(ProxyIds(fetched), fetched, k);
      IdListed(fetched, k);
      FirstKeysExact(keys);
      assert keys[i] in keys;
      AskedProxies(db.proxies, q.proxy.value.preds, FirstKeys(keys), k);
    }
  }

  lemma {:induction false} IdListed(rows: seq<ProxyRow>, k: int)
    ensures k in ProxyIds(rows) <==> exists r <- rows :: r.id == k
  {
    if k in ProxyIds(rows) {
      var i :| 0 <= i < |rows| && ProxyIds(rows)[i] == k;
      assert rows[i] in rows;
    }
    if r :| r in rows && r.id == k {
      var i :| 0 <= i < |rows| && rows[i] == r;
      assert ProxyIds(rows)[i] == k;
    }
  }

  lemma {:induction false} AskedProxies(rows: seq<ProxyRow>, preds: seq<ProxyRow -> bool>, ids: seq<int>, k: int)
    requires k in ids
    ensures forall r :: r in Select(rows, preds + [InProxies(ids)]) && r.id == k <==> r in rows && r.id == k && Matches(preds, r)
  {
    SelectMembers(rows, preds + [InProxies(ids)]);
    forall r: ProxyRow
      ensures Matches(preds + [InProxies(ids)], r) <==> Matches(preds, r) && r.id in ids
    {
      MatchesSnoc(preds, InProxies(ids), r);
    }
  }
}
