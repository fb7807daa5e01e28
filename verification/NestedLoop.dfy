/** The nested-loop join that eager loading stands for, and the proof that bulk loading computes it. */
module NestedLoop {
  import opened AccountFields
  import opened Joins
  import opened QueryModel
  import opened Wrappers

  // ---------------------------------------------------------------- one parent row at a time

  /** The account of one row, with its edges looked up for this row alone. */
  function NestedAccount(db: DB, q: AccountQ, r: AccountRow): AccountTree
    decreases q, 0
  {
    AccountTree(
      r.id,
      Seen(r.fields, q.fields, q.proxy.Some?),
      if q.groups.Some? then Loaded(NestedGroups(db.groups, db.links, q.groups.value.preds, r.id)) else Unloaded,
      if q.proxy.Some? then NestedProxy(db, q.proxy.value, r) else NotLoaded,
      if q.links.Some? then
        Loaded(NestedLinks(db, q.links.value, WithAccountID(q.links.value.fields), db.links, r.id))
      else Unloaded)
  }

  /** The proxy of one row, looked up for this row alone. */
  function NestedProxy(db: DB, q: ProxyQ, r: AccountRow): One<ProxyRow> {
    if ProxyID !in r.fields then NotFound
    else
      match r.fields[ProxyID]
      case Int(n) => ToOne(FindProxy(db.proxies, q.preds, n))
      case _ => NotFound
  }

  function NestedLink(db: DB, q: LinkQ, fields: seq<LinkField>, l: LinkRow): LinkTree
    decreases q, 0
  {
    LinkTree(
      LinkSeen(l, fields, q.account.Some?),
      if q.account.None? then NotLoaded
      else match FindAccount(db.accounts, q.account.value.preds, l.accountId)
        case None => NotFound
        case Some(r) => Found(NestedAccount(db, q.account.value, r)))
  }

  /** The links of one account, in table order. */
  function NestedLinks(db: DB, q: LinkQ, fields: seq<LinkField>, rows: seq<LinkRow>, account: int): seq<LinkTree>
    decreases q, 1, |rows|
  {
    if rows == [] then []
    else
      var n := |rows| - 1;
      NestedLinks(db, q, fields, rows[..n], account)
      + (if rows[n].accountId == account && Matches(q.preds, rows[n]) then [NestedLink(db, q, fields, rows[n])] else [])
  }

  function FindAccount(rows: seq<AccountRow>, preds: seq<AccountRow -> bool>, id: int): Option<AccountRow>
    decreases |rows|
  {
    if rows == [] then None
    else
      var n := |rows| - 1;
      if rows[n].id == id && Matches(preds, rows[n]) then Some(rows[n]) else FindAccount(rows[..n], preds, id)
  }

  function FindProxy(rows: seq<ProxyRow>, preds: seq<ProxyRow -> bool>, id: int): Option<ProxyRow>
    decreases |rows|
  {
    if rows == [] then None
    else
      var n := |rows| - 1;
      if rows[n].id == id && Matches(preds, rows[n]) then Some(rows[n]) else FindProxy(rows[..n], preds, id)
  }

  predicate Linked(links: seq<LinkRow>, account: int, group: int) {
    exists l <- links :: l.accountId == account && l.groupId == group
  }

  /** The groups of one account, in table order and each once. */
  function NestedGroups(groups: seq<GroupRow>, links: seq<LinkRow>, preds: seq<GroupRow -> bool>, account: int): seq<GroupRow>
    decreases |groups|
  {
    if groups == [] then []
    else
      var n := |groups| - 1;
      NestedGroups(groups[..n], links, preds, account)
      + (if Matches(preds, groups[n]) && Linked(links, account, groups[n].id) then [groups[n]] else [])
  }

  /** No edge query, at any depth, has a limit or an offset. */
  predicate Unwindowed(q: AccountQ)
    decreases q
  {
    && (q.groups.Some? ==> q.groups.value.window == EVERYTHING)
    && (q.proxy.Some? ==> q.proxy.value.window == EVERYTHING)
    && (q.links.Some? ==> q.links.value.window == EVERYTHING && UnwindowedLinks(q.links.value))
  }

  predicate UnwindowedLinks(q: LinkQ)
    decreases q
  {
    q.account.Some? ==> q.account.value.window == EVERYTHING && Unwindowed(q.account.value)
  }

  /** The rows that the join of the groups edge has before its window, and the proxies that are asked for. */
  function AllPairs(db: DB, q: AccountQ, rows: seq<AccountRow>): seq<Pair>
    requires q.groups.Some?
  {
    JoinAll(db.groups, db.links, q.groups.value.preds, AccountIds(rows))
  }

  function AllProxies(db: DB, q: AccountQ, rows: seq<AccountRow>): seq<ProxyRow>
    requires q.proxy.Some?
  {
    Select(db.proxies, q.proxy.value.preds + [InProxies(FirstKeys(ProxyKeys(q, rows)))])
  }

  /** No window of an edge query, at any depth, drops a row that its query selects in this run. The limit and
      the offset of the query itself are not an edge's. */
  ghost predicate Whole(db: DB, q: AccountQ, preds: seq<AccountRow -> bool>)
    decreases q
  {
    var rows := Fetch(db.accounts, preds, q.window);
    && (q.groups.Some? ==> Slice(AllPairs(db, q, rows), q.groups.value.window) == AllPairs(db, q, rows))
    && (q.proxy.Some? ==> Slice(AllProxies(db, q, rows), q.proxy.value.window) == AllProxies(db, q, rows))
    && (q.links.Some? ==>
          var l, p := q.links.value, q.links.value.preds + [InLinks(AccountIds(rows))];
          Fetch(db.links, p, l.window) == Select(db.links, p) && WholeLinks(db, l, p, WithAccountID(l.fields)))
  }

  ghost predicate WholeLinks(db: DB, q: LinkQ, preds: seq<LinkRow -> bool>, fields: seq<LinkField>)
    decreases q
  {
    q.account.Some? ==>
      var a, p := q.account.value, q.account.value.preds + [InAccounts(OwnersAsked(db, q, preds, fields))];
      Fetch(db.accounts, p, a.window) == Select(db.accounts, p) && Whole(db, a, p)
  }

  /** The accounts that the links of a run ask for. */
  function OwnersAsked(db: DB, q: LinkQ, preds: seq<LinkRow -> bool>, fields: seq<LinkField>): seq<int> {
    FirstKeys(OwnerKeys(SeenLinks(Fetch(db.links, preds, q.window), fields, q.account.Some?)))
  }

  // ---------------------------------------------------------------- filters

  lemma {:induction false} SelectMembers<R>(rows: seq<R>, preds: seq<R -> bool>)
    ensures forall r :: r in Select(rows, preds) <==> r in rows && Matches(preds, r)
    decreases |rows|
  {
    if rows != [] {
      var n := |rows| - 1;
      SelectMembers(rows[..n], preds);
      assert rows == rows[..n] + [rows[n]];
    }
  }

  lemma MatchesSnoc<R>(preds: seq<R -> bool>, p: R -> bool, r: R)
    ensures Matches(preds + [p], r) <==> Matches(preds, r) && p(r)
  {
    assert forall i :: 0 <= i < |preds| ==> (preds + [p])[i] == preds[i];
    assert (preds + [p])[|preds|] == p;
  }

  lemma {:induction false} SelectedAccountsDistinct(rows: seq<AccountRow>, preds: seq<AccountRow -> bool>)
    requires forall i, j :: 0 <= i < j < |rows| ==> rows[i].id != rows[j].id
    ensures forall i, j :: 0 <= i < j < |Select(rows, preds)| ==> Select(rows, preds)[i].id != Select(rows, preds)[j].id
    decreases |rows|
  {
    if rows != [] {
      var n := |rows| - 1;
      SelectedAccountsDistinct(rows[..n], preds);
      SelectMembers(rows[..n], preds);
      var s := Select(rows[..n], preds);
      forall i | 0 <= i < |s|
        ensures s[i].id != rows[n].id
      {
        assert s[i] in rows[..n];
      }
    }
  }

  /** Fetched accounts have distinct keys, whatever the window. */
  lemma {:induction false} FetchedDistinct(db: DB, preds: seq<AccountRow -> bool>, w: Window)
    requires Keyed(db)
    ensures Distinct(AccountIds(Fetch(db.accounts, preds, w)))
  {
    SelectedAccountsDistinct(db.accounts, preds);
  }

  // ---------------------------------------------------------------- one edge at a time

  lemma {:induction false} ProxyJoin(rows: seq<ProxyRow>, preds: seq<ProxyRow -> bool>, ids: seq<int>, k: int)
    requires k in ids
    ensures var found := Select(rows, preds + [InProxies(ids)]);
      LastWithKey(ProxyIds(found), found, k) == FindProxy(rows, preds, k)
    decreases |rows|
  {
    if rows != [] {
      var n := |rows| - 1;
      ProxyJoin(rows[..n], preds, ids, k);
      MatchesSnoc(preds, InProxies(ids), rows[n]);
      var before := Select(rows[..n], preds + [InProxies(ids)]);
      var found := Select(rows, preds + [InProxies(ids)]);
      if Matches(preds + [InProxies(ids)], rows[n]) {
        assert ProxyIds(found)[..|before|] == ProxyIds(before) && found[..|before|] == before;
      } else {
        assert found == before;
      }
    }
  }

  function AccountTrees(db: DB, q: AccountQ, rows: seq<AccountRow>): seq<AccountTree> {
    seq(|rows|, i requires 0 <= i < |rows| => NestedAccount(db, q, rows[i]))
  }

  function LinkTrees(db: DB, q: LinkQ, fields: seq<LinkField>, rows: seq<LinkRow>): seq<LinkTree> {
    seq(|rows|, i requires 0 <= i < |rows| => NestedLink(db, q, fields, rows[i]))
  }

  lemma {:induction false} AccountJoin(db: DB, q: AccountQ, rows: seq<AccountRow>, ids: seq<int>, k: int)
    requires k in ids
    ensures var found := AccountTrees(db, q, Select(rows, q.preds + [InAccounts(ids)]));
      LastWithKey(TreeIds(found), found, k) ==
        match FindAccount(rows, q.preds, k) case None => None case Some(r) => Some(NestedAccount(db, q, r))
    decreases |rows|
  {
    if rows != [] {
      var n := |rows| - 1;
      AccountJoin(db, q, rows[..n], ids, k);
      MatchesSnoc(q.preds, InAccounts(ids), rows[n]);
      var before := AccountTrees(db, q, Select(rows[..n], q.preds + [InAccounts(ids)]));
      var found := AccountTrees(db, q, Select(rows, q.preds + [InAccounts(ids)]));
      if Matches(q.preds + [InAccounts(ids)], rows[n]) {
        assert found[..|before|] == before && TreeIds(found)[..|before|] == TreeIds(before);
      } else {
        assert found == before;
      }
    }
  }

  lemma {:induction false} LinkJoin(db: DB, q: LinkQ, fields: seq<LinkField>, rows: seq<LinkRow>, ids: seq<int>, id: int)
    requires id in ids && (fields == [] || LinkAccountID in fields)
    ensures var found := LinkTrees(db, q, fields, Select(rows, q.preds + [InLinks(ids)]));
      WithKey(LinkKeys(found), found, id) == NestedLinks(db, q, fields, rows, id)
    decreases |rows|
  {
    if rows != [] {
      var n := |rows| - 1;
      LinkJoin(db, q, fields, rows[..n], ids, id);
      MatchesSnoc(q.preds, InLinks(ids), rows[n]);
      var before := LinkTrees(db, q, fields, Select(rows[..n], q.preds + [InLinks(ids)]));
      var found := LinkTrees(db, q, fields, Select(rows, q.preds + [InLinks(ids)]));
      if Matches(q.preds + [InLinks(ids)], rows[n]) {
        assert found[..|before|] == before && LinkKeys(found)[..|before|] == LinkKeys(before);
        assert found[|before|].data.accountId == rows[n].accountId;
      } else {
        assert found == before;
      }
    }
  }

  // ---------------------------------------------------------------- the groups edge

  lemma {:induction false} JoinGroupPairs(links: seq<LinkRow>, ids: seq<int>, g: GroupRow)
    ensures forall p <- JoinGroup(links, ids, g) :: p.1 == g && p.0 in ids
    ensures forall id <- ids :: Paired(JoinGroup(links, ids, g), id, g.id) <==> Linked(links, id, g.id)
    decreases |links|
  {
    if links != [] {
      var n := |links| - 1;
      JoinGroupPairs(links[..n], ids, g);
      var before := JoinGroup(links[..n], ids, g);
      assert links == links[..n] + [links[n]];
      forall id | id in ids
        ensures Paired(JoinGroup(links, ids, g), id, g.id) <==> Linked(links, id, g.id)
      {
        if links[n].groupId == g.id && links[n].accountId in ids {
          PairedAppend(before, [(links[n].accountId, g)], id, g.id);
        }
      }
    }
  }

  lemma PairedAppend(a: seq<Pair>, b: seq<Pair>, account: int, group: int)
    ensures Paired(a + b, account, group) <==> Paired(a, account, group) || Paired(b, account, group)
  {
    assert forall p :: p in a + b <==> p in a || p in b;
  }

  lemma {:induction false} FirstGroupsExact(pairs: seq<Pair>)
    ensures forall g <- FirstGroups(pairs) :: exists p <- pairs :: p.1 == g
    ensures forall p <- pairs :: HasId(FirstGroups(pairs), p.1.id)
    decreases |pairs|
  {
    if pairs != [] {
      var n := |pairs| - 1;
      FirstGroupsExact(pairs[..n]);
      assert pairs == pairs[..n] + [pairs[n]];
    }
  }

  /** Rows of one group add that group once, if it was not there yet. */
  lemma {:induction false} FirstGroupsAppend(a: seq<Pair>, b: seq<Pair>, g: GroupRow)
    requires forall p <- b :: p.1 == g
    requires !HasId(FirstGroups(a), g.id)
    ensures FirstGroups(a + b) == FirstGroups(a) + (if b == [] then [] else [g])
    decreases |b|
  {
    if b == [] {
      assert a + b == a;
    } else {
      var n := |b| - 1;
      FirstGroupsAppend(a, b[..n], g);
      assert (a + b)[..|a + b| - 1] == a + b[..n];
      assert b[n].1 == g;
      if b[..n] != [] {
        assert g in FirstGroups(a + b[..n]);
      }
    }
  }

  lemma {:induction false} OwnedByCongruent(gs: seq<GroupRow>, a: seq<Pair>, b: seq<Pair>, account: int)
    requires forall g <- gs :: Paired(a, account, g.id) == Paired(b, account, g.id)
    ensures OwnedBy(gs, a, account) == OwnedBy(gs, b, account)
    decreases |gs|
  {
    if gs != [] {
      var n := |gs| - 1;
      OwnedByCongruent(gs[..n], a, b, account);
      assert gs[n] in gs;
    }
  }

  lemma {:induction false} JoinAllGroups(groups: seq<GroupRow>, links: seq<LinkRow>, preds: seq<GroupRow -> bool>, ids: seq<int>)
    ensures forall p <- JoinAll(groups, links, preds, ids) :: p.1 in groups && p.0 in ids
    decreases |groups|
  {
    if groups != [] {
      var n := |groups| - 1;
      JoinAllGroups(groups[..n], links, preds, ids);
      JoinGroupPairs(links, ids, groups[n]);
      assert groups == groups[..n] + [groups[n]];
    }
  }

  lemma {:induction false} GroupJoin(groups: seq<GroupRow>, links: seq<LinkRow>, preds: seq<GroupRow -> bool>, ids: seq<int>, id: int)
    requires id in ids && forall i, j :: 0 <= i < j < |groups| ==> groups[i].id != groups[j].id
    ensures var pairs := JoinAll(groups, links, preds, ids);
      OwnedBy(FirstGroups(pairs), pairs, id) == NestedGroups(groups, links, preds, id)
    decreases |groups|
  {
    if groups != [] {
      var n := |groups| - 1;
      var g := groups[n];
      GroupJoin(groups[..n], links, preds, ids, id);
      if Matches(preds, g) {
        GroupJoinStep(groups, links, preds, ids, id);
      } else {
        assert JoinAll(groups, links, preds, ids) == JoinAll(groups[..n], links, preds, ids);
      }
    }
  }

  lemma {:induction false} GroupJoinStep(groups: seq<GroupRow>, links: seq<LinkRow>, preds: seq<GroupRow -> bool>, ids: seq<int>, id: int)
    requires id in ids && groups != [] && forall i, j :: 0 <= i < j < |groups| ==> groups[i].id != groups[j].id
    requires Matches(preds, groups[|groups| - 1])
    ensures var a := JoinAll(groups[..|groups| - 1], links, preds, ids);
      var pairs := JoinAll(groups, links, preds, ids);
      OwnedBy(FirstGroups(pairs), pairs, id) ==
        OwnedBy(FirstGroups(a), a, id)
        + (if Linked(links, id, groups[|groups| - 1].id) then [groups[|groups| - 1]] else [])
  {
    var n := |groups| - 1;
    var g := groups[n];
    JoinAllGroups(groups[..n], links, preds, ids);
    JoinGroupPairs(links, ids, g);
    OwnedByAppend(JoinAll(groups[..n], links, preds, ids), JoinGroup(links, ids, g), g, id);
  }

  /** Rows of a new group give it to the accounts that they pair it with, and change nothing else. */
  lemma {:induction false} OwnedByAppend(a: seq<Pair>, b: seq<Pair>, g: GroupRow, account: int)
    requires (forall p <- b :: p.1 == g) && forall p <- a :: p.1.id != g.id
    ensures OwnedBy(FirstGroups(a + b), a + b, account) ==
            OwnedBy(FirstGroups(a), a, account) + (if Paired(b, account, g.id) then [g] else [])
  {
    FirstGroupsExact(a);
    FirstGroupsAppend(a, b, g);
    KeptOwners(a, b, g, account);
    PairedAppend(a, b, account, g.id);
    if b != [] {
      assert (FirstGroups(a) + [g])[..|FirstGroups(a)|] == FirstGroups(a);
    } else {
      assert FirstGroups(a) + [] == FirstGroups(a) && !Paired(b, account, g.id);
    }
  }

  lemma {:induction false} KeptOwners(a: seq<Pair>, b: seq<Pair>, g: GroupRow, account: int)
    requires (forall p <- b :: p.1 == g) && forall p <- a :: p.1.id != g.id
    ensures OwnedBy(FirstGroups(a), a + b, account) == OwnedBy(FirstGroups(a), a, account)
  {
    FirstGroupsExact(a);
    forall x | x in FirstGroups(a)
      ensures Paired(a + b, account, x.id) == Paired(a, account, x.id)
    {
      PairedAppend(a, b, account, x.id);
    }
    OwnedByCongruent(FirstGroups(a), a, a + b, account);
  }

  // ---------------------------------------------------------------- the theorem

  /** Without limits and offsets, nothing is dropped. */
  lemma {:induction false} UnwindowedWhole(db: DB, q: AccountQ, preds: seq<AccountRow -> bool>)
    requires Unwindowed(q)
    ensures Whole(db, q, preds)
    decreases q
  {
    if q.links.Some? {
      var l := q.links.value;
      UnwindowedLinksWhole(db, l, l.preds + [InLinks(AccountIds(Fetch(db.accounts, preds, q.window)))], WithAccountID(l.fields));
    }
  }

  lemma {:induction false} UnwindowedLinksWhole(db: DB, q: LinkQ, preds: seq<LinkRow -> bool>, fields: seq<LinkField>)
    requires UnwindowedLinks(q)
    ensures WholeLinks(db, q, preds, fields)
    decreases q
  {
    if q.account.Some? {
      UnwindowedWhole(db, q.account.value, q.account.value.preds + [InAccounts(OwnersAsked(db, q, preds, fields))]);
    }
  }

  lemma {:induction false} LinksAreNested(db: DB, q: LinkQ, preds: seq<LinkRow -> bool>, fields: seq<LinkField>)
    requires Keyed(db) && WholeLinks(db, q, preds, fields)
    ensures RunLinks(db, q, preds, fields) == LinkTrees(db, q, fields, Fetch(db.links, preds, q.window))
    decreases q
  {
    var raw := Fetch(db.links, preds, q.window);
    if q.account.Some? {
      var a, ids := q.account.value, OwnersAsked(db, q, preds, fields);
      BulkIsNested(db, a, a.preds + [InAccounts(ids)]);
      forall i | 0 <= i < |raw|
        ensures RunLinks(db, q, preds, fields)[i] == NestedLink(db, q, fields, raw[i])
      {
        OwnerAsked(db, q, preds, fields, i);
        AccountJoin(db, a, db.accounts, ids, raw[i].accountId);
      }
    }
  }

  /** Whatever columns are selected, the account of every fetched link is asked for. */
  lemma {:induction false} OwnerAsked(db: DB, q: LinkQ, preds: seq<LinkRow -> bool>, fields: seq<LinkField>, i: nat)
    requires q.account.Some? && i < |Fetch(db.links, preds, q.window)|
    ensures Fetch(db.links, preds, q.window)[i].accountId in OwnersAsked(db, q, preds, fields)
  {
    var keys := OwnerKeys(SeenLinks(Fetch(db.links, preds, q.window), fields, true));
    FirstKeysExact(keys);
    assert keys[i] == Some(Fetch(db.links, preds, q.window)[i].accountId);
  }

  /** Bulk loading is the nested-loop join, for every database with primary keys and every finite tree of edge
      queries whose windows drop nothing, whatever predicates, selected columns and windows the root has. */
  lemma {:induction false} BulkIsNested(db: DB, q: AccountQ, preds: seq<AccountRow -> bool>)
    requires Keyed(db) && Whole(db, q, preds)
    ensures RunAccounts(db, q, preds) == AccountTrees(db, q, Fetch(db.accounts, preds, q.window))
    decreases q
  {
    var rows := Fetch(db.accounts, preds, q.window);
    FetchedDistinct(db, preds, q.window);
    if q.links.Some? {
      var l := q.links.value;
      LinksAreNested(db, l, l.preds + [InLinks(AccountIds(rows))], WithAccountID(l.fields));
    }
    forall i | 0 <= i < |rows|
      ensures RunAccounts(db, q, preds)[i] == NestedAccount(db, q, rows[i])
    {
      DistinctIsLast(AccountIds(rows), i);
      if q.groups.Some? {
        GroupsNested(db, q, rows, i);
      }
      if q.proxy.Some? {
        ProxyNested(db, q, rows, i);
      }
      if q.links.Some? {
        LinksNested(db, q, rows, i);
      }
    }
  }

  lemma {:induction false} GroupsNested(db: DB, q: AccountQ, rows: seq<AccountRow>, i: nat)
    requires Keyed(db) && q.groups.Some? && i < |rows| && IsLast(AccountIds(rows), i)
    ensures GroupsEdge(AccountIds(rows), i, AllPairs(db, q, rows)) ==
            NestedGroups(db.groups, db.links, q.groups.value.preds, rows[i].id)
  {
    var ids := AccountIds(rows);
    assert ids[i] in ids;
    GroupJoin(db.groups, db.links, q.groups.value.preds, ids, ids[i]);
  }

  lemma {:induction false} ProxyNested(db: DB, q: AccountQ, rows: seq<AccountRow>, i: nat)
    requires q.proxy.Some? && i < |rows|
    ensures ProxyEdge(ProxyKeys(q, rows)[i], AllProxies(db, q, rows)) == NestedProxy(db, q.proxy.value, rows[i])
  {
    var keys := ProxyKeys(q, rows);
    assert keys[i] == ProxyKey(rows[i].fields);
    FirstKeysExact(keys);
    if keys[i].Some? {
      assert keys[i] in keys;
      ProxyJoin(db.proxies, q.proxy.value.preds, FirstKeys(keys), keys[i].value);
    }
  }

  lemma {:induction false} LinksNested(db: DB, q: AccountQ, rows: seq<AccountRow>, i: nat)
    requires q.links.Some? && i < |rows| && IsLast(AccountIds(rows), i)
    ensures
      var l, fields := q.links.value, WithAccountID(q.links.value.fields);
      LinksEdge(AccountIds(rows), i, LinkTrees(db, l, fields, Select(db.links, l.preds + [InLinks(AccountIds(rows))]))) ==
      NestedLinks(db, l, fields, db.links, rows[i].id)
  {
    var l, ids := q.links.value, AccountIds(rows);
    assert ids[i] in ids;
    LinkJoin(db, l, WithAccountID(l.fields), db.links, ids, ids[i]);
  }

  lemma SliceWhole<R>(rows: seq<R>, w: Window)
    ensures |Slice(rows, w)| <= |rows|
    ensures |Slice(rows, w)| == |rows| ==> Slice(rows, w) == rows
    ensures forall r <- Slice(rows, w) :: r in rows
  {
  }

  lemma SelectedLinks(db: DB, q: LinkQ, ids: seq<int>)
    ensures forall r <- Select(db.links, q.preds + [InLinks(ids)]) :: r.accountId in ids
  {
    SelectMembers(db.links, q.preds + [InLinks(ids)]);
    forall r | r in Select(db.links, q.preds + [InLinks(ids)])
      ensures r.accountId in ids
    {
      MatchesSnoc(q.preds, InLinks(ids), r);
    }
  }
}
