/** What loaded nodes show of the rows they were read from, cell by cell. */
module NodeLaws {
  import opened AccountFields
  import opened Entities
  import opened Joins
  import opened NestedLoop
  import opened QueryModel
  import opened Wrappers

  // ---------------------------------------------------------------- which rows

  /** Rows are selected one by one, in table order. */
  lemma {:induction false} SelectAppend<R>(a: seq<R>, b: seq<R>, preds: seq<R -> bool>)
    ensures Select(a + b, preds) == Select(a, preds) + Select(b, preds)
    decreases |b|
  {
    if b == [] {
      assert a + b == a && Select(a, preds) + [] == Select(a, preds);
    } else {
      var n := |b| - 1;
      SelectAppend(a, b[..n], preds);
      assert (a + b)[..|a + b| - 1] == a + b[..n] && (a + b)[|a + b| - 1] == b[n];
    }
  }

  lemma SelectOne<R>(r: R, preds: seq<R -> bool>)
    ensures Select([r], preds) == if forall p <- preds :: p(r) then [r] else []
  {
    assert [r][..0] == [];
    assert Matches(preds, r) <==> forall p <- preds :: p(r);
  }

  /** OFFSET skips that many rows; LIMIT keeps at most that many, and zero keeps all. */
  lemma SliceExact<R>(rows: seq<R>, w: Window)
    ensures
      var left := if w.offset <= |rows| then |rows| - w.offset else 0;
      |Slice(rows, w)| == if w.limit == 0 || left < w.limit then left else w.limit
    ensures forall i :: 0 <= i < |Slice(rows, w)| ==> Slice(rows, w)[i] == rows[w.offset + i]
  {
  }

  // ---------------------------------------------------------------- which columns

  /** A column is shown when it is selected: without a selection, all are; the proxy edge adds `proxy_id`. */
  predicate Selected(q: AccountQ, f: Field) {
    q.fields == [] || f in q.fields || (f == ProxyID && q.proxy.Some?)
  }

  /** A node has the ID of its row and exactly the selected cells; and its accessors report "not loaded" exactly
      for the edges that were not asked for. */
  lemma {:induction false} NodeShowsRow(db: DB, q: AccountQ, preds: seq<AccountRow -> bool>, nodes: seq<Account>, S: set<object>, i: nat)
    requires ShowsAccounts(nodes, RunAccounts(db, q, preds), S) && i < |nodes|
    ensures |nodes| == |Fetch(db.accounts, preds, q.window)|
    ensures
      var row := Fetch(db.accounts, preds, q.window)[i];
      && nodes[i].id == row.id
      && (forall f :: f in nodes[i].columns <==> f in row.fields && Selected(q, f))
      && (forall f <- nodes[i].columns :: nodes[i].columns[f] == row.fields[f])
    ensures nodes[i].GroupsOrErr() == Unloaded <==> q.groups == None
    ensures nodes[i].ProxyOrErr() == NotLoaded <==> q.proxy == None
    ensures nodes[i].AccountGroupsOrErr() == Unloaded <==> q.links == None
  {
    assert ShowsAccount(nodes[i], RunAccounts(db, q, preds)[i], S);
  }

  /** The value of a link column, which is zero when a selection leaves the column out. */
  function Shown(fields: seq<LinkField>, f: LinkField, value: int): int {
    if fields == [] || f in fields then value else 0
  }

  /** Below an account, a link shows its account's ID in any case, and each other column when it is selected. */
  ghost predicate ChildOf(db: DB, q: LinkQ, id: int, child: LinkRow, row: LinkRow) {
    && row in db.links && row.accountId == id && Matches(q.preds, row)
    && child.accountId == id
    && child.groupId == Shown(q.fields, LinkGroupID, row.groupId)
    && child.priority == Shown(q.fields, LinkPriority, row.priority)
    && child.createdAt == Shown(q.fields, LinkCreatedAt, row.createdAt)
  }

  lemma {:induction false} SeenChild(db: DB, q: LinkQ, ids: seq<int>, row: LinkRow)
    requires row in Fetch(db.links, q.preds + [InLinks(ids)], q.window)
    ensures ChildOf(db, q, row.accountId, LinkSeen(row, WithAccountID(q.fields), q.account.Some?), row)
  {
    SliceWhole(Select(db.links, q.preds + [InLinks(ids)]), q.window);
    SelectMembers(db.links, q.preds + [InLinks(ids)]);
    MatchesSnoc(q.preds, InLinks(ids), row);
  }

  /** Every link that a node shows is one of its account's rows. */
  lemma {:induction false} ChildShowsRow(db: DB, q: AccountQ, preds: seq<AccountRow -> bool>, nodes: seq<Account>, S: set<object>, i: nat, k: nat)
    requires ShowsAccounts(nodes, RunAccounts(db, q, preds), S) && i < |nodes| && q.links.Some?
    requires nodes[i].AccountGroupsOrErr().Loaded? && k < |nodes[i].AccountGroupsOrErr().values|
    ensures exists row :: ChildOf(db, q.links.value, nodes[i].id, nodes[i].AccountGroupsOrErr().values[k].data, row)
  {
    var rows, l := Fetch(db.accounts, preds, q.window), q.links.value;
    var ids := AccountIds(rows);
    var children := RunLinks(db, l, l.preds + [InLinks(ids)], WithAccountID(l.fields));
    assert ShowsAccount(nodes[i], RunAccounts(db, q, preds)[i], S);
    var edge := LinksEdge(ids, i, children);
    assert ShowsLink(nodes[i].AccountGroupsOrErr().values[k], edge[k], S);
    EdgeChild(db, l, ids, i, edge[k]);
  }

  lemma {:induction false} EdgeChild(db: DB, l: LinkQ, ids: seq<int>, i: nat, t: LinkTree)
    requires i < |ids| && t in LinksEdge(ids, i, RunLinks(db, l, l.preds + [InLinks(ids)], WithAccountID(l.fields)))
    ensures exists row :: ChildOf(db, l, ids[i], t.data, row)
  {
    var children := RunLinks(db, l, l.preds + [InLinks(ids)], WithAccountID(l.fields));
    var rows := Fetch(db.links, l.preds + [InLinks(ids)], l.window);
    var j := KeyedAt(LinkKeys(children), children, ids[i], t);
    assert rows[j] in rows && t.data == LinkSeen(rows[j], WithAccountID(l.fields), l.account.Some?);
    SeenChild(db, l, ids, rows[j]);
    assert ChildOf(db, l, ids[i], t.data, rows[j]);
  }

  lemma {:induction false} KeyedAt<T>(keys: seq<int>, xs: seq<T>, k: int, x: T) returns (j: nat)
    requires |keys| == |xs| && x in WithKey(keys, xs, k)
    ensures j < |xs| && xs[j] == x && keys[j] == k
    decreases |xs|
  {
    var n := |xs| - 1;
    if keys[n] == k && xs[n] == x {
      j := n;
    } else {
      j := KeyedAt(keys[..n], xs[..n], k, x);
    }
  }
}
