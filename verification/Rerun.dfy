/** Running a query again. Each run leaves one more filter on the edge queries it used, and may widen their
    column selection; the results do not change. */
module Rerun {
  import opened Joins
  import opened NestedLoop
  import opened QueryModel

  /** No groups edge anywhere in the tree. (Each run of a groups edge adds another join to its query, and what
      two such joins select is up to the SQL library.) */
  predicate NoGroups(q: AccountQ)
    decreases q
  {
    q.groups.None? && (q.links.Some? ==> NoGroupsBelow(q.links.value))
  }

  predicate NoGroupsBelow(q: LinkQ)
    decreases q
  {
    q.account.Some? ==> NoGroups(q.account.value)
  }

  lemma {:induction false} SelectTwice<R>(rows: seq<R>, preds: seq<R -> bool>, p: R -> bool)
    ensures Select(rows, preds + [p] + [p]) == Select(rows, preds + [p])
    decreases |rows|
  {
    if rows != [] {
      var n := |rows| - 1;
      SelectTwice(rows[..n], preds, p);
      MatchesSnoc(preds + [p], p, rows[n]);
      MatchesSnoc(preds, p, rows[n]);
    }
  }

  /** A run depends on its predicates only through the rows that they fetch. */
  lemma {:induction false} SameRowsSameAccounts(db: DB, q: AccountQ, a: seq<AccountRow -> bool>, b: seq<AccountRow -> bool>)
    requires Fetch(db.accounts, a, q.window) == Fetch(db.accounts, b, q.window)
    ensures RunAccounts(db, q, a) == RunAccounts(db, q, b)
  {
  }

  lemma {:induction false} SameRowsSameLinks(db: DB, q: LinkQ, a: seq<LinkRow -> bool>, b: seq<LinkRow -> bool>, fields: seq<LinkField>)
    requires Fetch(db.links, a, q.window) == Fetch(db.links, b, q.window)
    ensures RunLinks(db, q, a, fields) == RunLinks(db, q, b, fields)
  {
  }

  lemma {:induction false} ProxiesAgain(db: DB, q: AccountQ, after: AccountQ, rows: seq<AccountRow>)
    requires q.proxy.Some? && after.proxy.Some? && after.fields == q.fields && after.proxy.value.window == q.proxy.value.window
    requires var keys := FirstKeys(ProxyKeys(q, rows));
      after.proxy.value.preds == if keys == [] then q.proxy.value.preds else q.proxy.value.preds + [InProxies(keys)]
    ensures ProxyKeys(after, rows) == ProxyKeys(q, rows)
    ensures ProxiesFor(db, after, rows) == ProxiesFor(db, q, rows)
  {
    assert ProxyKeys(after, rows) == ProxyKeys(q, rows);
    SelectTwice(db.proxies, q.proxy.value.preds, InProxies(FirstKeys(ProxyKeys(q, rows))));
  }

  lemma {:induction false} AgainLinks(db: DB, q: LinkQ, preds: seq<LinkRow -> bool>, fields: seq<LinkField>)
    requires NoGroupsBelow(q)
    ensures RunLinks(db, AfterLinks(db, q, preds, fields), preds, fields) == RunLinks(db, q, preds, fields)
    ensures NoGroupsBelow(AfterLinks(db, q, preds, fields))
    decreases q
  {
    var after := AfterLinks(db, q, preds, fields);
    var rows := SeenLinks(Fetch(db.links, preds, q.window), fields, q.account.Some?);
    if q.account.Some? && rows != [] {
      var a, p := q.account.value, InAccounts(FirstKeys(OwnerKeys(rows)));
      AgainAccounts(db, a, a.preds + [p]);
      SelectTwice(db.accounts, a.preds, p);
      SameRowsSameAccounts(db, after.account.value, a.preds + [p] + [p], a.preds + [p]);
    }
  }

  /** The children of a links edge are the same in the second run. */
  lemma {:induction false} ChildrenAgain(db: DB, l: LinkQ, ids: seq<int>)
    requires NoGroupsBelow(l)
    requires
      var preds, fields := l.preds + [InLinks(ids)], WithAccountID(l.fields);
      RunLinks(db, AfterLinks(db, l, preds, fields), preds, fields) == RunLinks(db, l, preds, fields)
    ensures
      var after := AfterLinks(db, l, l.preds + [InLinks(ids)], WithAccountID(l.fields));
      RunLinks(db, after, after.preds + [InLinks(ids)], WithAccountID(after.fields)) ==
      RunLinks(db, l, l.preds + [InLinks(ids)], WithAccountID(l.fields))
  {
    var p := InLinks(ids);
    var after := AfterLinks(db, l, l.preds + [p], WithAccountID(l.fields));
    SelectTwice(db.links, l.preds, p);
    SameRowsSameLinks(db, after, l.preds + [p] + [p], l.preds + [p], WithAccountID(l.fields));
  }

  /** On an unchanged database a query with many-to-one and one-to-many edges returns the same trees again. */
  lemma {:induction false} AgainAccounts(db: DB, q: AccountQ, preds: seq<AccountRow -> bool>)
    requires NoGroups(q)
    ensures RunAccounts(db, AfterAccounts(db, q, preds), preds) == RunAccounts(db, q, preds)
    ensures NoGroups(AfterAccounts(db, q, preds))
    decreases q
  {
    var after := AfterAccounts(db, q, preds);
    var rows := Fetch(db.accounts, preds, q.window);
    if rows != [] {
      if q.links.Some? {
        var l, ids := q.links.value, AccountIds(rows);
        AgainLinks(db, l, l.preds + [InLinks(ids)], WithAccountID(l.fields));
        ChildrenAgain(db, l, ids);
      }
      if q.proxy.Some? {
        ProxiesAgain(db, q, after, rows);
      }
      forall i | 0 <= i < |rows|
        ensures RunAccounts(db, after, preds)[i] == RunAccounts(db, q, preds)[i]
      {
      }
    }
  }
}
