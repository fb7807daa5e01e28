/** Eager loading on values: what the query builders for accounts and account groups return and leave behind,
    and the nested-loop join it amounts to (account_query.go and accountgroup_query.go under
    sub2api/backend/ent). */
module QueryModel {
  import opened AccountFields
  import opened Joins
  import opened Wrappers

  // ---------------------------------------------------------------- the database

  datatype AccountRow = AccountRow(id: int, fields: Fields)
  datatype LinkRow = LinkRow(accountId: int, groupId: int, priority: int, createdAt: int)
  datatype GroupRow = GroupRow(id: int, name: string)
  datatype ProxyRow = ProxyRow(id: int, name: string)

  /** The four tables; `links` is account_groups, which is also the join table of the groups edge. */
  datatype DB = DB(accounts: seq<AccountRow>, links: seq<LinkRow>, groups: seq<GroupRow>, proxies: seq<ProxyRow>)

  /** The primary keys that one-to-many and many-to-many loading rely on. */
  ghost predicate Keyed(db: DB) {
    && (forall i, j :: 0 <= i < j < |db.accounts| ==> db.accounts[i].id != db.accounts[j].id)
    && (forall i, j :: 0 <= i < j < |db.groups| ==> db.groups[i].id != db.groups[j].id)
  }

  /** The foreign key of the proxy edge, nil or a number. */
  function ProxyKey(m: Fields): Option<int> {
    if ProxyID in m && m[ProxyID].Int? then Some(m[ProxyID].n) else None
  }

  /** The `proxy_id` cell of a row holds this number. */
  predicate HasProxyID(m: Fields, n: int) {
    ProxyID in m && m[ProxyID] == Int(n)
  }

  lemma ProxyKeyExact(m: Fields, n: int)
    ensures ProxyKey(m) == Some(n) <==> HasProxyID(m, n)
    ensures ProxyID !in m ==> ProxyKey(m) == None
  {
  }

  // ---------------------------------------------------------------- queries

  /** LIMIT and OFFSET; a limit of zero is no limit. */
  datatype Window = Window(offset: nat, limit: nat)

  const EVERYTHING := Window(0, 0)

  datatype LinkField = LinkAccountID | LinkGroupID | LinkPriority | LinkCreatedAt

  /** The groups query also keeps the joins that `loadGroups` appends to it, by the parent keys they ask for. */
  datatype GroupQ = GroupQ(preds: seq<GroupRow -> bool>, joins: seq<seq<int>>, window: Window)
  datatype ProxyQ = ProxyQ(preds: seq<ProxyRow -> bool>, window: Window)
  datatype LinkQ = LinkQ(preds: seq<LinkRow -> bool>, fields: seq<LinkField>, window: Window, account: Option<AccountQ>)
  datatype AccountQ = AccountQ(preds: seq<AccountRow -> bool>, fields: seq<Field>, window: Window,
                               groups: Option<GroupQ>, proxy: Option<ProxyQ>, links: Option<LinkQ>)

  predicate Matches<R>(preds: seq<R -> bool>, r: R) {
    forall i :: 0 <= i < |preds| ==> preds[i](r)
  }

  function Select<R>(rows: seq<R>, preds: seq<R -> bool>): seq<R>
    decreases |rows|
  {
    if rows == [] then []
    else
      var n := |rows| - 1;
      Select(rows[..n], preds) + (if Matches(preds, rows[n]) then [rows[n]] else [])
  }

  function Slice<R>(rows: seq<R>, w: Window): seq<R> {
    var rest := if w.offset <= |rows| then rows[w.offset..] else [];
    if 0 < w.limit <= |rest| then rest[..w.limit] else rest
  }

  /** The rows that a query returns: all predicates hold, then the window applies. */
  function Fetch<R>(rows: seq<R>, preds: seq<R -> bool>, w: Window): seq<R> {
    Slice(Select(rows, preds), w)
  }

  function InAccounts(ids: seq<int>): AccountRow -> bool { (r: AccountRow) => r.id in ids }
  function InProxies(ids: seq<int>): ProxyRow -> bool { (r: ProxyRow) => r.id in ids }
  function InLinks(ids: seq<int>): LinkRow -> bool { (r: LinkRow) => r.accountId in ids }

  /** `AppendFieldOnce`. */
  function Once<T(==)>(xs: seq<T>, x: T): seq<T> {
    if x in xs then xs else xs + [x]
  }

  /** The columns that an account node shows: all, or the selected ones, with `proxy_id` added when the proxy
      edge needs it. */
  function Seen(m: Fields, fields: seq<Field>, needProxy: bool): Fields {
    if fields == [] then m
    else map f | f in m && (f in fields || (needProxy && f == ProxyID)) :: m[f]
  }

  /** The same for an account-group node, whose unselected columns are zero. */
  function LinkSeen(r: LinkRow, fields: seq<LinkField>, needAccount: bool): LinkRow {
    if fields == [] then r
    else LinkRow(if LinkAccountID in fields || needAccount then r.accountId else 0,
                 if LinkGroupID in fields then r.groupId else 0,
                 if LinkPriority in fields then r.priority else 0,
                 if LinkCreatedAt in fields then r.createdAt else 0)
  }

  /** The columns that a one-to-many parent makes its child query select. */
  function WithAccountID(fields: seq<LinkField>): seq<LinkField> {
    if fields == [] then fields else Once(fields, LinkAccountID)
  }

  // ---------------------------------------------------------------- results

  /** What the edge accessors report. */
  datatype One<+T> = NotLoaded | NotFound | Found(value: T)
  datatype Many<+T> = Unloaded | Loaded(values: seq<T>)

  datatype AccountTree = AccountTree(id: int, columns: Fields, groups: Many<GroupRow>, proxy: One<ProxyRow>, links: Many<LinkTree>)
  datatype LinkTree = LinkTree(data: LinkRow, account: One<AccountTree>)

  function ToOne<T>(o: Option<T>): One<T> {
    if o.Some? then Found(o.value) else NotFound
  }

  function AccountIds(rows: seq<AccountRow>): seq<int> {
    seq(|rows|, i requires 0 <= i < |rows| => rows[i].id)
  }

  function ProxyIds(rows: seq<ProxyRow>): seq<int> {
    seq(|rows|, i requires 0 <= i < |rows| => rows[i].id)
  }

  function TreeIds(ts: seq<AccountTree>): seq<int> {
    seq(|ts|, i requires 0 <= i < |ts| => ts[i].id)
  }

  function LinkKeys(ts: seq<LinkTree>): seq<int> {
    seq(|ts|, i requires 0 <= i < |ts| => ts[i].data.accountId)
  }

  // ---------------------------------------------------------------- the many-to-many edge

  type Pair = (int, GroupRow)

  /** The rows of the join for one group, then for all groups that match. */
  function JoinGroup(links: seq<LinkRow>, ids: seq<int>, g: GroupRow): seq<Pair>
    decreases |links|
  {
    if links == [] then []
    else
      var n := |links| - 1;
      JoinGroup(links[..n], ids, g)
      + (if links[n].groupId == g.id && links[n].accountId in ids then [(links[n].accountId, g)] else [])
  }

  function JoinAll(groups: seq<GroupRow>, links: seq<LinkRow>, preds: seq<GroupRow -> bool>, ids: seq<int>): seq<Pair>
    decreases |groups|
  {
    if groups == [] then []
    else
      var n := |groups| - 1;
      JoinAll(groups[..n], links, preds, ids) + (if Matches(preds, groups[n]) then JoinGroup(links, ids, groups[n]) else [])
  }

  predicate HasId(gs: seq<GroupRow>, id: int) {
    exists g <- gs :: g.id == id
  }

  /** The group nodes that scanning the join creates: one for each group, at its first row. */
  function FirstGroups(pairs: seq<Pair>): seq<GroupRow>
    decreases |pairs|
  {
    if pairs == [] then []
    else
      var before := FirstGroups(pairs[..|pairs| - 1]);
      var g := pairs[|pairs| - 1].1;
      if HasId(before, g.id) then before else before + [g]
  }

  predicate Paired(pairs: seq<Pair>, account: int, group: int) {
    exists p <- pairs :: p.0 == account && p.1.id == group
  }

  function OwnedBy(gs: seq<GroupRow>, pairs: seq<Pair>, account: int): seq<GroupRow>
    decreases |gs|
  {
    if gs == [] then []
    else
      var n := |gs| - 1;
      OwnedBy(gs[..n], pairs, account) + (if Paired(pairs, account, gs[n].id) then [gs[n]] else [])
  }

  // ---------------------------------------------------------------- what the code computes

  function GroupsEdge(ids: seq<int>, i: nat, pairs: seq<Pair>): seq<GroupRow>
    requires i < |ids|
  {
    if IsLast(ids, i) then OwnedBy(FirstGroups(pairs), pairs, ids[i]) else []
  }

  function ProxyEdge(key: Option<int>, neighbors: seq<ProxyRow>): One<ProxyRow> {
    match key
    case None => NotFound
    case Some(k) => ToOne(LastWithKey(ProxyIds(neighbors), neighbors, k))
  }

  function LinksEdge(ids: seq<int>, i: nat, children: seq<LinkTree>): seq<LinkTree>
    requires i < |ids|
  {
    if IsLast(ids, i) then WithKey(LinkKeys(children), children, ids[i]) else []
  }

  function ProxyKeys(q: AccountQ, rows: seq<AccountRow>): seq<Option<int>> {
    seq(|rows|, i requires 0 <= i < |rows| => ProxyKey(Seen(rows[i].fields, q.fields, q.proxy.Some?)))
  }

  function PairsFor(db: DB, q: GroupQ, ids: seq<int>): seq<Pair> {
    Slice(JoinAll(db.groups, db.links, q.preds, ids), q.window)
  }

  function ProxiesFor(db: DB, q: AccountQ, rows: seq<AccountRow>): seq<ProxyRow>
    requires q.proxy.Some?
  {
    Fetch(db.proxies, q.proxy.value.preds + [InProxies(FirstKeys(ProxyKeys(q, rows)))], q.proxy.value.window)
  }

  /** `sqlAll` of the account query, with the given predicates in force: one bulk query per edge. */
  function RunAccounts(db: DB, q: AccountQ, preds: seq<AccountRow -> bool>): (ts: seq<AccountTree>)
    ensures |ts| == |Fetch(db.accounts, preds, q.window)|
    decreases q
  {
    var rows := Fetch(db.accounts, preds, q.window);
    var ids := AccountIds(rows);
    var children :=
      if q.links.Some? then
        RunLinks(db, q.links.value, q.links.value.preds + [InLinks(ids)], WithAccountID(q.links.value.fields))
      else [];
    seq(|rows|, i requires 0 <= i < |rows| => AccountTree(
      rows[i].id,
      Seen(rows[i].fields, q.fields, q.proxy.Some?),
      if q.groups.Some? then Loaded(GroupsEdge(ids, i, PairsFor(db, q.groups.value, ids))) else Unloaded,
      if q.proxy.Some? then ProxyEdge(ProxyKeys(q, rows)[i], ProxiesFor(db, q, rows)) else NotLoaded,
      if q.links.Some? then Loaded(LinksEdge(ids, i, children)) else Unloaded))
  }

  function SeenLinks(rows: seq<LinkRow>, fields: seq<LinkField>, needAccount: bool): seq<LinkRow> {
    seq(|rows|, i requires 0 <= i < |rows| => LinkSeen(rows[i], fields, needAccount))
  }

  function OwnerKeys(rows: seq<LinkRow>): seq<Option<int>> {
    seq(|rows|, i requires 0 <= i < |rows| => Some(rows[i].accountId))
  }

  /** `sqlAll` of the account-group query, with the given predicates and selected columns in force. */
  function RunLinks(db: DB, q: LinkQ, preds: seq<LinkRow -> bool>, fields: seq<LinkField>): (ts: seq<LinkTree>)
    ensures |ts| == |Fetch(db.links, preds, q.window)|
    decreases q
  {
    var rows := SeenLinks(Fetch(db.links, preds, q.window), fields, q.account.Some?);
    var owners :=
      if q.account.Some? then
        RunAccounts(db, q.account.value, q.account.value.preds + [InAccounts(FirstKeys(OwnerKeys(rows)))])
      else [];
    seq(|rows|, i requires 0 <= i < |rows| => LinkTree(
      rows[i],
      if q.account.Some? then ToOne(LastWithKey(TreeIds(owners), owners, rows[i].accountId)) else NotLoaded))
  }

  // ---------------------------------------------------------------- what the code leaves behind

  /** The account query after a run: every edge query that was used has one more filter. */
  function AfterAccounts(db: DB, q: AccountQ, preds: seq<AccountRow -> bool>): AccountQ
    decreases q
  {
    var rows := Fetch(db.accounts, preds, q.window);
    var ids := AccountIds(rows);
    if rows == [] then q.(preds := preds)
    else
      var keys := FirstKeys(ProxyKeys(q, rows));
      AccountQ(
        preds, q.fields, q.window,
        if q.groups.Some? then Some(q.groups.value.(joins := q.groups.value.joins + [ids])) else None,
        if q.proxy.Some? && keys != [] then Some(q.proxy.value.(preds := q.proxy.value.preds + [InProxies(keys)])) else q.proxy,
        if q.links.Some? then
          Some(AfterLinks(db, q.links.value, q.links.value.preds + [InLinks(ids)], WithAccountID(q.links.value.fields)))
        else None)
  }

  function AfterLinks(db: DB, q: LinkQ, preds: seq<LinkRow -> bool>, fields: seq<LinkField>): LinkQ
    decreases q
  {
    var rows := SeenLinks(Fetch(db.links, preds, q.window), fields, q.account.Some?);
    if rows == [] || q.account.None? then q.(preds := preds, fields := fields)
    else
      LinkQ(preds, fields, q.window,
        Some(AfterAccounts(db, q.account.value, q.account.value.preds + [InAccounts(FirstKeys(OwnerKeys(rows)))])))
  }
}
