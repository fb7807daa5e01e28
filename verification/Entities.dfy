/** The loaded nodes. Scalar columns never change after scanning; the edge fields are filled in by the
    loaders, and the accessors report them (account.go and accountgroup.go under sub2api/backend/ent). */
module Entities {
  import opened AccountFields
  import opened QueryModel
  import opened Wrappers

  class Group {
    const row: GroupRow

    constructor (row: GroupRow)
      ensures this.row == row
    {
      this.row := row;
    }
  }

  class Proxy {
    const row: ProxyRow

    constructor (row: ProxyRow)
      ensures this.row == row
    {
      this.row := row;
    }
  }

  class Account {
    const id: int
    const columns: Fields
    const groupsLoaded: bool
    const proxyLoaded: bool
    const linksLoaded: bool
    /** The slices Edges.Groups and Edges.AccountGroups, where None is a nil slice. */
    var groups: Option<seq<Group>>
    var proxy: Proxy?
    var links: Option<seq<AccountGroup>>

    constructor (id: int, columns: Fields, groupsLoaded: bool, proxyLoaded: bool, linksLoaded: bool)
      ensures this.id == id && this.columns == columns && groups == None && proxy == null && links == None
      ensures this.groupsLoaded == groupsLoaded && this.proxyLoaded == proxyLoaded && this.linksLoaded == linksLoaded
    {
      this.id, this.columns, groups, proxy, links := id, columns, None, null, None;
      this.groupsLoaded, this.proxyLoaded, this.linksLoaded := groupsLoaded, proxyLoaded, linksLoaded;
    }

    function GroupsOrErr(): Many<Group>
      reads this
    {
      if groupsLoaded then Loaded(if groups.Some? then groups.value else []) else Unloaded
    }

    function ProxyOrErr(): One<Proxy>
      reads this
    {
      if proxy != null then Found(proxy) else if proxyLoaded then NotFound else NotLoaded
    }

    function AccountGroupsOrErr(): Many<AccountGroup>
      reads this
    {
      if linksLoaded then Loaded(if links.Some? then links.value else []) else Unloaded
    }
  }

  class AccountGroup {
    const data: LinkRow
    const accountLoaded: bool
    var account: Account?

    constructor (data: LinkRow, accountLoaded: bool)
      ensures this.data == data && this.accountLoaded == accountLoaded && account == null
    {
      this.data, this.accountLoaded, account := data, accountLoaded, null;
    }

    function AccountOrErr(): One<Account>
      reads this
    {
      if account != null then Found(account) else if accountLoaded then NotFound else NotLoaded
    }
  }

  // ---------------------------------------------------------------- the tree that a node unfolds to

  function GroupRows(gs: seq<Group>): seq<GroupRow> {
    seq(|gs|, i requires 0 <= i < |gs| => gs[i].row)
  }

  ghost predicate ShowsGroups(m: Many<Group>, t: Many<GroupRow>) {
    match (m, t)
    case (Unloaded, Unloaded) => true
    case (Loaded(gs), Loaded(rows)) => GroupRows(gs) == rows
    case _ => false
  }

  ghost predicate ShowsProxy(o: One<Proxy>, t: One<ProxyRow>) {
    match (o, t)
    case (NotLoaded, NotLoaded) => true
    case (NotFound, NotFound) => true
    case (Found(p), Found(r)) => p.row == r
    case _ => false
  }

  /** Following the accessors from account node `a`, within the objects S, one sees the tree t. */
  ghost predicate ShowsAccount(a: Account, t: AccountTree, S: set<object>)
    reads S
    decreases t
  {
    && a in S && a.id == t.id && a.columns == t.columns
    && ShowsGroups(a.GroupsOrErr(), t.groups)
    && ShowsProxy(a.ProxyOrErr(), t.proxy)
    && match (a.AccountGroupsOrErr(), t.links)
       case (Unloaded, Unloaded) => true
       case (Loaded(ls), Loaded(ts)) => |ls| == |ts| && forall i :: 0 <= i < |ts| ==> ShowsLink(ls[i], ts[i], S)
       case _ => false
  }

  ghost predicate ShowsLink(l: AccountGroup, t: LinkTree, S: set<object>)
    reads S
    decreases t
  {
    && l in S && l.data == t.data
    && match (l.AccountOrErr(), t.account)
       case (NotLoaded, NotLoaded) => true
       case (NotFound, NotFound) => true
       case (Found(a), Found(at)) => ShowsAccount(a, at, S)
       case _ => false
  }

  ghost predicate ShowsAccounts(xs: seq<Account>, ts: seq<AccountTree>, S: set<object>)
    reads S
  {
    |xs| == |ts| && forall i :: 0 <= i < |ts| ==> ShowsAccount(xs[i], ts[i], S)
  }

  ghost predicate ShowsLinks(xs: seq<AccountGroup>, ts: seq<LinkTree>, S: set<object>)
    reads S
  {
    |xs| == |ts| && forall i :: 0 <= i < |ts| ==> ShowsLink(xs[i], ts[i], S)
  }

  /** A larger set of objects shows the same tree. */
  lemma {:induction false} ShowsAccountIn(a: Account, t: AccountTree, S: set<object>, bigger: set<object>)
    requires ShowsAccount(a, t, S) && S <= bigger
    ensures ShowsAccount(a, t, bigger)
    decreases t
  {
    if t.links.Loaded? {
      var ls := a.AccountGroupsOrErr().values;
      forall i | 0 <= i < |t.links.values|
        ensures ShowsLink(ls[i], t.links.values[i], bigger)
      {
        ShowsLinkIn(ls[i], t.links.values[i], S, bigger);
      }
    }
  }

  lemma {:induction false} ShowsLinkIn(l: AccountGroup, t: LinkTree, S: set<object>, bigger: set<object>)
    requires ShowsLink(l, t, S) && S <= bigger
    ensures ShowsLink(l, t, bigger)
    decreases t
  {
    if t.account.Found? {
      ShowsAccountIn(l.account, t.account.value, S, bigger);
    }
  }

  /** A node shows one tree only. */
  lemma {:induction false} ShowsOne(a: Account, t: AccountTree, u: AccountTree, S: set<object>)
    requires ShowsAccount(a, t, S) && ShowsAccount(a, u, S)
    ensures t == u
    decreases t
  {
    if t.links.Loaded? {
      var ls, ts, us := a.AccountGroupsOrErr().values, t.links.values, u.links.values;
      forall i | 0 <= i < |ts|
        ensures ts[i] == us[i]
      {
        ShowsOneLink(ls[i], ts[i], us[i], S);
      }
    }
  }

  lemma {:induction false} ShowsOneLink(l: AccountGroup, t: LinkTree, u: LinkTree, S: set<object>)
    requires ShowsLink(l, t, S) && ShowsLink(l, u, S)
    ensures t == u
    decreases t
  {
    if t.account.Found? {
      ShowsOne(l.account, t.account.value, u.account.value, S);
    }
  }
}
