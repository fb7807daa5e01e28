/** Limits and offsets on edge queries. They apply to the children of all parents together, so that a window
    can take children away from some parents; here is exactly when bulk loading is still the nested-loop join. */
module WindowLaws {
  import opened EdgeLaws
  import opened Joins
  import opened NestedLoop
  import opened QueryModel
  import opened Wrappers

  /** The other primary keys of the schema: (account_id, group_id) of account_groups, and the id of proxies. */
  ghost predicate KeyedEdges(db: DB) {
    && (forall i, j :: 0 <= i < j < |db.links| ==>
          db.links[i].accountId != db.links[j].accountId || db.links[i].groupId != db.links[j].groupId)
    && (forall i, j :: 0 <= i < j < |db.proxies| ==> db.proxies[i].id != db.proxies[j].id)
  }

  lemma {:induction false} DistinctFits<T>(a: seq<T>, b: seq<T>)
    requires Distinct(a) && forall x <- a :: x in b
    ensures |a| <= |b|
    decreases |a|
  {
    if a != [] {
      var n := |a| - 1;
      assert a[n] in b;
      var i :| 0 <= i < |b| && b[i] == a[n];
      var rest := b[..i] + b[i + 1..];
      forall x | x in a[..n]
        ensures x in rest
      {
        assert x in a && x in b;
        var j :| 0 <= j < |b| && b[j] == x;
        assert j < i || b[i + 1..][j - i - 1] == x;
      }
      DistinctFits(a[..n], rest);
    }
  }

  // ---------------------------------------------------------------- the groups edge

  function PairKeys(pairs: seq<Pair>): seq<(int, int)> {
    seq(|pairs|, i requires 0 <= i < |pairs| => (pairs[i].0, pairs[i].1.id))
  }

  lemma {:induction false} JoinGroupDistinct(links: seq<LinkRow>, ids: seq<int>, g: GroupRow)
    requires forall i, j :: 0 <= i < j < |links| ==>
      links[i].accountId != links[j].accountId || links[i].groupId != links[j].groupId
    ensures Distinct(PairKeys(JoinGroup(links, ids, g)))
    decreases |links|
  {
    if links != [] {
      var n := |links| - 1;
      JoinGroupDistinct(links[..n], ids, g);
      JoinGroupPairs(links[..n], ids, g);
      var before := JoinGroup(links[..n], ids, g);
      if links[n].groupId == g.id && links[n].accountId in ids {
        assert !Linked(links[..n], links[n].accountId, g.id);
        assert forall i :: 0 <= i < |before| ==> before[i] in before && before[i].0 != links[n].accountId;
        DistinctAppend(PairKeys(before), [(links[n].accountId, g.id)]);
        assert PairKeys(before + [(links[n].accountId, g)]) == PairKeys(before) + [(links[n].accountId, g.id)];
      } else {
        assert before + [] == before;
      }
    }
  }

  lemma {:induction false} JoinAllDistinct(groups: seq<GroupRow>, links: seq<LinkRow>, preds: seq<GroupRow -> bool>, ids: seq<int>)
    requires forall i, j :: 0 <= i < j < |groups| ==> groups[i].id != groups[j].id
    requires forall i, j :: 0 <= i < j < |links| ==>
      links[i].accountId != links[j].accountId || links[i].groupId != links[j].groupId
    ensures Distinct(PairKeys(JoinAll(groups, links, preds, ids)))
    decreases |groups|
  {
    if groups != [] {
      var n := |groups| - 1;
      var a, b := JoinAll(groups[..n], links, preds, ids), JoinGroup(links, ids, groups[n]);
      JoinAllDistinct(groups[..n], links, preds, ids);
      if Matches(preds, groups[n]) {
        JoinGroupDistinct(links, ids, groups[n]);
        JoinAllGroups(groups[..n], links, preds, ids);
        JoinGroupPairs(links, ids, groups[n]);
        assert forall i :: 0 <= i < |a| ==> a[i] in a && a[i].1.id != groups[n].id;
        assert forall i :: 0 <= i < |b| ==> b[i] in b && b[i].1.id == groups[n].id;
        DistinctAppend(PairKeys(a), PairKeys(b));
        assert PairKeys(a + b) == PairKeys(a) + PairKeys(b);
      } else {
        assert a + [] == a;
      }
    }
  }

  lemma DistinctAppend<T>(a: seq<T>, b: seq<T>)
    requires Distinct(a) && Distinct(b) && forall i, j :: 0 <= i < |a| && 0 <= j < |b| ==> a[i] != b[j]
    ensures Distinct(a + b)
  {
  }

  /** An account is shown a group exactly when the rows of the join pair them. */
  lemma {:induction false} ShownPair(pairs: seq<Pair>, account: int, group: int)
    ensures HasId(OwnedBy(FirstGroups(pairs), pairs, account), group) <==> Paired(pairs, account, group)
  {
    FirstGroupsDistinct(pairs);
    FirstGroupsExact(pairs);
    OwnedExact(FirstGroups(pairs), pairs, account);
    if Paired(pairs, account, group) {
      var p :| p in pairs && p.0 == account && p.1.id == group;
      var g :| g in FirstGroups(pairs) && g.id == group;
      assert g in OwnedBy(FirstGroups(pairs), pairs, account);
    }
  }

  /** When every account has its nested groups, the window kept a row for each pair of the join. */
  lemma {:induction false} PairKept(db: DB, q: AccountQ, rows: seq<AccountRow>, p: Pair)
    requires Keyed(db) && q.groups.Some? && Distinct(AccountIds(rows)) && p in AllPairs(db, q, rows)
    requires forall i :: 0 <= i < |rows| ==>
      GroupsEdge(AccountIds(rows), i, PairsFor(db, q.groups.value, AccountIds(rows))) ==
      NestedGroups(db.groups, db.links, q.groups.value.preds, rows[i].id)
    ensures Paired(PairsFor(db, q.groups.value, AccountIds(rows)), p.0, p.1.id)
  {
    var ids := AccountIds(rows);
    JoinAllGroups(db.groups, db.links, q.groups.value.preds, ids);
    var i :| 0 <= i < |ids| && ids[i] == p.0;
    DistinctIsLast(ids, i);
    GroupsNested(db, q, rows, i);
    ShownPair(AllPairs(db, q, rows), p.0, p.1.id);
    ShownPair(PairsFor(db, q.groups.value, ids), p.0, p.1.id);
  }

  lemma {:induction false} GroupsExact(db: DB, q: AccountQ, rows: seq<AccountRow>)
    requires Keyed(db) && KeyedEdges(db) && q.groups.Some? && Distinct(AccountIds(rows))
    requires forall i :: 0 <= i < |rows| ==>
      GroupsEdge(AccountIds(rows), i, PairsFor(db, q.groups.value, AccountIds(rows))) ==
      NestedGroups(db.groups, db.links, q.groups.value.preds, rows[i].id)
    ensures PairsFor(db, q.groups.value, AccountIds(rows)) == AllPairs(db, q, rows)
  {
    var all, some := AllPairs(db, q, rows), PairsFor(db, q.groups.value, AccountIds(rows));
    forall p | p in all
      ensures Paired(some, p.0, p.1.id)
    {
      PairKept(db, q, rows, p);
    }
    JoinAllDistinct(db.groups, db.links, q.groups.value.preds, AccountIds(rows));
    PairsFit(all, some);
    SliceWhole(all, q.groups.value.window);
  }

  lemma {:induction false} PairsFit(all: seq<Pair>, some: seq<Pair>)
    requires Distinct(PairKeys(all)) && forall p <- all :: Paired(some, p.0, p.1.id)
    ensures |all| <= |some|
  {
    forall j | 0 <= j < |all|
      ensures PairKeys(all)[j] in PairKeys(some)
    {
      assert all[j] in all;
      var p :| p in some && p.0 == all[j].0 && p.1.id == all[j].1.id;
      var m :| 0 <= m < |some| && some[m] == p;
      assert PairKeys(some)[m] == PairKeys(all)[j];
    }
    DistinctFits(PairKeys(all), PairKeys(some));
  }

  // ---------------------------------------------------------------- the proxy edge

  lemma {:induction false} SelectedProxiesDistinct(rows: seq<ProxyRow>, preds: seq<ProxyRow -> bool>)
    requires Distinct(ProxyIds(rows))
    ensures Distinct(ProxyIds(Select(rows, preds)))
    decreases |rows|
  {
    if rows != [] {
      var n := |rows| - 1;
      assert ProxyIds(rows)[..n] == ProxyIds(rows[..n]);
      SelectedProxiesDistinct(rows[..n], preds);
      SelectMembers(rows[..n], preds);
      var s := Select(rows[..n], preds);
      forall i | 0 <= i < |s|
        ensures s[i].id != rows[n].id
      {
        assert s[i] in rows[..n];
        var j :| 0 <= j < n && rows[..n][j] == s[i];
        assert ProxyIds(rows)[j] != ProxyIds(rows)[n];
      }
      DistinctAppend(ProxyIds(s), [rows[n].id]);
      assert ProxyIds(s + [rows[n]]) == ProxyIds(s) + [rows[n].id] && s + [] == s;
    }
  }

  /** Every selected proxy is the one that some account's key names. */
  lemma {:induction false} ProxyNamed(db: DB, q: AccountQ, rows: seq<AccountRow>, r: ProxyRow) returns (i: nat)
    requires q.proxy.Some? && r in AllProxies(db, q, rows)
    ensures i < |rows| && ProxyKeys(q, rows)[i] == Some(r.id)
  {
    var keys := ProxyKeys(q, rows);
    SelectMembers(db.proxies, q.proxy.value.preds + [InProxies(FirstKeys(keys))]);
    MatchesSnoc(q.proxy.value.preds, InProxies(FirstKeys(keys)), r);
    FirstKeysExact(keys);
    i :| 0 <= i < |keys| && keys[i] == Some(r.id);
  }

  lemma {:induction false} ProxiesExact(db: DB, q: AccountQ, rows: seq<AccountRow>)
    requires KeyedEdges(db) && q.proxy.Some?
    requires forall i :: 0 <= i < |rows| ==>
      ProxyEdge(ProxyKeys(q, rows)[i], ProxiesFor(db, q, rows)) == NestedProxy(db, q.proxy.value, rows[i])
    ensures ProxiesFor(db, q, rows) == AllProxies(db, q, rows)
  {
    var all, some := AllProxies(db, q, rows), ProxiesFor(db, q, rows);
    SelectedProxiesDistinct(db.proxies, q.proxy.value.preds + [InProxies(FirstKeys(ProxyKeys(q, rows)))]);
    forall k | k in ProxyIds(all)
      ensures k in ProxyIds(some)
    {
      var j :| 0 <= j < |all| && ProxyIds(all)[j] == k;
      var i := ProxyNamed(db, q, rows, all[j]);
      ProxyNested(db, q, rows, i);
      LastWithKeyExists(ProxyIds(all), all, k);
      LastWithKeyExists(ProxyIds(some), some, k);
    }
    DistinctFits(ProxyIds(all), ProxyIds(some));
    SliceWhole(all, q.proxy.value.window);
  }

  // ---------------------------------------------------------------- the links edge

  /** The lists of all keys together determine the children. */
  lemma {:induction false} ListsDetermine<T>(keys: seq<int>, xs: seq<T>, ys: seq<T>)
    requires |keys| == |xs| == |ys|
    requires forall k <- keys :: WithKey(keys, xs, k) == WithKey(keys, ys, k)
    ensures xs == ys
    decreases |keys|
  {
    if keys != [] {
      var n := |keys| - 1;
      forall k | k in keys
        ensures WithKey(keys[..n], xs[..n], k) == WithKey(keys[..n], ys[..n], k)
        ensures k == keys[n] ==> xs[n] == ys[n]
      {
        var a, b := WithKey(keys[..n], xs[..n], k), WithKey(keys[..n], ys[..n], k);
        assert a + [] == a && b + [] == b;
        assert (a + [xs[n]])[..|a|] == a && (b + [ys[n]])[..|b|] == b;
      }
      assert keys[n] in keys && forall k <- keys[..n] :: k in keys;
      ListsDetermine(keys[..n], xs[..n], ys[..n]);
    }
  }

  /** One-to-many lists of the same parents: as many children in total, hence the same ones if their keys are. */
  lemma {:induction false} SameLists<T>(ids: seq<int>, ka: seq<int>, a: seq<T>, kb: seq<int>, b: seq<T>)
    requires |ka| == |a| && |kb| == |b| && Distinct(ids) && (forall k <- ka :: k in ids) && forall k <- kb :: k in ids
    requires forall i :: 0 <= i < |ids| ==> WithKey(ka, a, ids[i]) == WithKey(kb, b, ids[i])
    ensures |a| == |b|
    ensures ka == kb ==> a == b
  {
    Partition(ids, ka, a);
    Partition(ids, kb, b);
    assert Counts(ids, ka, a) == Counts(ids, kb, b);
    if ka == kb {
      ListsDetermine(ka, a, b);
    }
  }

  /** The children show their parent's key, whatever columns were selected. */
  lemma {:induction false} ChildKeys(l: LinkQ, ids: seq<int>, rows: seq<LinkRow>, ts: seq<LinkTree>)
    requires forall r <- rows :: r.accountId in ids
    requires |ts| == |rows|
    requires forall j :: 0 <= j < |rows| ==> ts[j].data == LinkSeen(rows[j], WithAccountID(l.fields), l.account.Some?)
    ensures forall j :: 0 <= j < |rows| ==> LinkKeys(ts)[j] == rows[j].accountId
    ensures forall k <- LinkKeys(ts) :: k in ids
  {
    forall j | 0 <= j < |rows|
      ensures LinkKeys(ts)[j] == rows[j].accountId && LinkKeys(ts)[j] in ids
    {
      assert rows[j] in rows;
    }
  }

  /** When every parent has the children of the nested-loop join, no child was dropped, and the children have
      the subtrees of the nested-loop join. */
  lemma {:induction false} LinksExact(db: DB, q: AccountQ, rows: seq<AccountRow>)
    requires q.links.Some? && Distinct(AccountIds(rows))
    requires
      var l, p, fields := q.links.value, q.links.value.preds + [InLinks(AccountIds(rows))], WithAccountID(q.links.value.fields);
      forall i :: 0 <= i < |rows| ==>
        LinksEdge(AccountIds(rows), i, RunLinks(db, l, p, fields)) == NestedLinks(db, l, fields, db.links, rows[i].id)
    ensures
      var l, p, fields := q.links.value, q.links.value.preds + [InLinks(AccountIds(rows))], WithAccountID(q.links.value.fields);
      Fetch(db.links, p, l.window) == Select(db.links, p) && RunLinks(db, l, p, fields) == LinkTrees(db, l, fields, Select(db.links, p))
  {
    var l, ids, fields := q.links.value, AccountIds(rows), WithAccountID(q.links.value.fields);
    var p := l.preds + [InLinks(ids)];
    var all, some := Select(db.links, p), Fetch(db.links, p, l.window);
    var ts, nested := RunLinks(db, l, p, fields), LinkTrees(db, l, fields, all);
    SelectedLinks(db, l, ids);
    SliceWhole(all, l.window);
    ChildKeys(l, ids, some, ts);
    ChildKeys(l, ids, all, nested);
    forall i | 0 <= i < |ids|
      ensures WithKey(LinkKeys(ts), ts, ids[i]) == WithKey(LinkKeys(nested), nested, ids[i])
    {
      DistinctIsLast(ids, i);
      LinksNested(db, q, rows, i);
    }
    SameLists(ids, LinkKeys(ts), ts, LinkKeys(nested), nested);
    assert LinkKeys(ts) == LinkKeys(nested);
  }

  // ---------------------------------------------------------------- the account edge of a link

  lemma {:induction false} LastOfDistinct<T>(keys: seq<int>, xs: seq<T>, j: nat)
    requires Distinct(keys) && |keys| == |xs| && j < |xs|
    ensures LastWithKey(keys, xs, keys[j]) == Some(xs[j])
  {
    LastWithKeyExists(keys, xs, keys[j]);
  }

  /** Every selected account is the one that some link of the run names. */
  lemma {:induction false} OwnerNamed(db: DB, q: LinkQ, preds: seq<LinkRow -> bool>, fields: seq<LinkField>, r: AccountRow)
    returns (i: nat)
    requires q.account.Some?
    requires r in Select(db.accounts, q.account.value.preds + [InAccounts(OwnersAsked(db, q, preds, fields))])
    ensures r.id in OwnersAsked(db, q, preds, fields)
    ensures i < |Fetch(db.links, preds, q.window)| && Fetch(db.links, preds, q.window)[i].accountId == r.id
  {
    var ids := OwnersAsked(db, q, preds, fields);
    var keys := OwnerKeys(SeenLinks(Fetch(db.links, preds, q.window), fields, true));
    SelectMembers(db.accounts, q.account.value.preds + [InAccounts(ids)]);
    MatchesSnoc(q.account.value.preds, InAccounts(ids), r);
    FirstKeysExact(keys);
    i :| 0 <= i < |keys| && keys[i] == Some(r.id);
  }

  /** Trees of distinct accounts, each of which is found among others under its ID, are all there. */
  lemma {:induction false} FoundAll(ids: seq<int>, ts: seq<AccountTree>, others: seq<int>, us: seq<AccountTree>)
    requires |ids| == |ts| && |others| == |us| && Distinct(ids)
    requires forall j :: 0 <= j < |ids| ==> LastWithKey(others, us, ids[j]) == Some(ts[j])
    ensures |ids| <= |others|
    ensures ids == others ==> ts == us
  {
    forall j | 0 <= j < |ids|
      ensures ids[j] in others
    {
      LastWithKeyExists(others, us, ids[j]);
    }
    DistinctFits(ids, others);
    if ids == others {
      forall j | 0 <= j < |ids|
        ensures ts[j] == us[j]
      {
        LastOfDistinct(others, us, j);
      }
    }
  }

  lemma {:induction false} OwnersExact(db: DB, q: LinkQ, preds: seq<LinkRow -> bool>, fields: seq<LinkField>)
    requires Keyed(db) && q.account.Some?
    requires RunLinks(db, q, preds, fields) == LinkTrees(db, q, fields, Fetch(db.links, preds, q.window))
    ensures
      var a, p := q.account.value, q.account.value.preds + [InAccounts(OwnersAsked(db, q, preds, fields))];
      Fetch(db.accounts, p, a.window) == Select(db.accounts, p) && RunAccounts(db, a, p) == AccountTrees(db, a, Select(db.accounts, p))
  {
    var a, p := q.account.value, q.account.value.preds + [InAccounts(OwnersAsked(db, q, preds, fields))];
    var all := Select(db.accounts, p);
    var owners, nested := RunAccounts(db, a, p), AccountTrees(db, a, all);
    SelectedAccountsDistinct(db.accounts, p);
    assert TreeIds(owners) == AccountIds(Fetch(db.accounts, p, a.window)) && TreeIds(nested) == AccountIds(all);
    forall j | 0 <= j < |all|
      ensures LastWithKey(TreeIds(owners), owners, AccountIds(all)[j]) == Some(nested[j])
    {
      OwnerSame(db, q, preds, fields, all[j]);
      LastOfDistinct(TreeIds(nested), nested, j);
    }
    FoundAll(AccountIds(all), nested, TreeIds(owners), owners);
    SliceWhole(all, a.window);
  }

  /** The account that a selected row's key finds among the loaded ones is the nested one. */
  lemma {:induction false} OwnerSame(db: DB, q: LinkQ, preds: seq<LinkRow -> bool>, fields: seq<LinkField>, r: AccountRow)
    requires q.account.Some?
    requires RunLinks(db, q, preds, fields) == LinkTrees(db, q, fields, Fetch(db.links, preds, q.window))
    requires r in Select(db.accounts, q.account.value.preds + [InAccounts(OwnersAsked(db, q, preds, fields))])
    ensures
      var a, p := q.account.value, q.account.value.preds + [InAccounts(OwnersAsked(db, q, preds, fields))];
      var owners, nested := RunAccounts(db, a, p), AccountTrees(db, a, Select(db.accounts, p));
      LastWithKey(TreeIds(owners), owners, r.id) == LastWithKey(TreeIds(nested), nested, r.id)
  {
    var a, raw := q.account.value, Fetch(db.links, preds, q.window);
    var i := OwnerNamed(db, q, preds, fields, r);
    AccountJoin(db, a, db.accounts, OwnersAsked(db, q, preds, fields), r.id);
    assert RunLinks(db, q, preds, fields)[i].account == NestedLink(db, q, fields, raw[i]).account;
  }

  // ---------------------------------------------------------------- the theorem

  /** Bulk loading is the nested-loop join if and only if no window of any edge query, at any depth, drops a row
      that its query selects. */
  lemma {:induction false} WindowsExact(db: DB, q: AccountQ, preds: seq<AccountRow -> bool>)
    requires Keyed(db) && KeyedEdges(db)
    ensures RunAccounts(db, q, preds) == AccountTrees(db, q, Fetch(db.accounts, preds, q.window)) <==> Whole(db, q, preds)
    decreases q
  {
    var rows := Fetch(db.accounts, preds, q.window);
    if Whole(db, q, preds) {
      BulkIsNested(db, q, preds);
    }
    if RunAccounts(db, q, preds) == AccountTrees(db, q, rows) {
      FetchedDistinct(db, preds, q.window);
      assert forall i :: 0 <= i < |rows| ==> RunAccounts(db, q, preds)[i] == NestedAccount(db, q, rows[i]);
      if q.groups.Some? {
        GroupsExact(db, q, rows);
      }
      if q.proxy.Some? {
        ProxiesExact(db, q, rows);
      }
      if q.links.Some? {
        LinksExact(db, q, rows);
        LinkWindowsExact(db, q.links.value, q.links.value.preds + [InLinks(AccountIds(rows))], WithAccountID(q.links.value.fields));
      }
    }
  }

  lemma {:induction false} LinkWindowsExact(db: DB, q: LinkQ, preds: seq<LinkRow -> bool>, fields: seq<LinkField>)
    requires Keyed(db) && KeyedEdges(db)
    ensures RunLinks(db, q, preds, fields) == LinkTrees(db, q, fields, Fetch(db.links, preds, q.window)) <==>
            WholeLinks(db, q, preds, fields)
    decreases q
  {
    if WholeLinks(db, q, preds, fields) {
      LinksAreNested(db, q, preds, fields);
    }
    if q.account.Some? && RunLinks(db, q, preds, fields) == LinkTrees(db, q, fields, Fetch(db.links, preds, q.window)) {
      OwnersExact(db, q, preds, fields);
      WindowsExact(db, q.account.value, q.account.value.preds + [InAccounts(OwnersAsked(db, q, preds, fields))]);
    }
  }

  /** With a window on the top links edge alone, the keys of proxies and links are not needed. */
  lemma {:induction false} WindowExact(db: DB, q: AccountQ, preds: seq<AccountRow -> bool>)
    requires Keyed(db) && q.links.Some? && Unwindowed(q.(links := Some(q.links.value.(window := EVERYTHING))))
    ensures
      var rows := Fetch(db.accounts, preds, q.window);
      var selected := Select(db.links, q.links.value.preds + [InLinks(AccountIds(rows))]);
      RunAccounts(db, q, preds) == AccountTrees(db, q, rows) <==> Slice(selected, q.links.value.window) == selected
  {
    var rows := Fetch(db.accounts, preds, q.window);
    var l := q.links.value;
    FetchedDistinct(db, preds, q.window);
    UnwindowedLinksWhole(db, l, l.preds + [InLinks(AccountIds(rows))], WithAccountID(l.fields));
    if RunAccounts(db, q, preds) == AccountTrees(db, q, rows) {
      assert forall i :: 0 <= i < |rows| ==> RunAccounts(db, q, preds)[i] == NestedAccount(db, q, rows[i]);
      LinksExact(db, q, rows);
    }
    if Fetch(db.links, l.preds + [InLinks(AccountIds(rows))], l.window) == Select(db.links, l.preds + [InLinks(AccountIds(rows))]) {
      assert Whole(db, q, preds);
      BulkIsNested(db, q, preds);
    }
  }

  // ---------------------------------------------------------------- an example

  const TWO_ACCOUNTS := DB([AccountRow(1, map[]), AccountRow(2, map[])], [LinkRow(1, 7, 0, 0), LinkRow(2, 7, 0, 0)], [], [])
  const FIRST_LINK := AccountQ([], [], EVERYTHING, None, None, Some(LinkQ([], [], Window(0, 1), None)))

  /** A limit of one link leaves the second of two accounts, which has one link, without any. */
  lemma {:induction false} LimitIsNotPerParent()
    ensures RunAccounts(TWO_ACCOUNTS, FIRST_LINK, []) != AccountTrees(TWO_ACCOUNTS, FIRST_LINK, TWO_ACCOUNTS.accounts)
  {
    var db, q := TWO_ACCOUNTS, FIRST_LINK;
    SelectAll(db.accounts, []);
    var ids := AccountIds(db.accounts);
    assert ids == [1, 2];
    forall r | r in db.links
      ensures Matches([InLinks(ids)], r)
    {
    }
    SelectAll(db.links, [InLinks(ids)]);
    assert [] + [InLinks(ids)] == [InLinks(ids)];
    WindowExact(db, q, []);
  }

  lemma {:induction false} SelectAll<R>(rows: seq<R>, preds: seq<R -> bool>)
    requires forall r <- rows :: Matches(preds, r)
    ensures Select(rows, preds) == rows
    decreases |rows|
  {
    if rows != [] {
      var n := |rows| - 1;
      SelectAll(rows[..n], preds);
      assert rows == rows[..n] + [rows[n]];
    }
  }
}
