/** What the many-to-many loader attaches, for any sequence of join rows. */
module EdgeLaws {
  import opened Joins
  import opened NestedLoop
  import opened QueryModel

  ghost predicate DistinctIds(gs: seq<GroupRow>) {
    forall i, j :: 0 <= i < j < |gs| ==> gs[i].id != gs[j].id
  }

  lemma {:induction false} FirstGroupsDistinct(pairs: seq<Pair>)
    ensures DistinctIds(FirstGroups(pairs))
    decreases |pairs|
  {
    if pairs != [] {
      FirstGroupsDistinct(pairs[..|pairs| - 1]);
    }
  }

  /** Exactly the groups paired with the account, each once, in the order in which groups first appear. */
  lemma {:induction false} OwnedExact(gs: seq<GroupRow>, pairs: seq<Pair>, account: int)
    requires DistinctIds(gs)
    ensures DistinctIds(OwnedBy(gs, pairs, account))
    ensures forall g :: g in OwnedBy(gs, pairs, account) <==> g in gs && Paired(pairs, account, g.id)
    decreases |gs|
  {
    if gs != [] {
      var n := |gs| - 1;
      OwnedExact(gs[..n], pairs, account);
      assert gs == gs[..n] + [gs[n]];
      var owned := OwnedBy(gs[..n], pairs, account);
      forall i | 0 <= i < |owned|
        ensures owned[i].id != gs[n].id
      {
        assert owned[i] in gs[..n];
      }
    }
  }

  ghost function PairIds(pairs: seq<Pair>): set<(int, int)> {
    set p | p in pairs :: (p.0, p.1.id)
  }

  /** The pairs of one account, and of several accounts, among the given groups. */
  ghost function PairsOf(gs: seq<GroupRow>, pairs: seq<Pair>, account: int): set<(int, int)> {
    set g | g in gs && Paired(pairs, account, g.id) :: (account, g.id)
  }

  ghost function PairsOfAll(ids: seq<int>, gs: seq<GroupRow>, pairs: seq<Pair>): set<(int, int)>
    decreases |ids|
  {
    if ids == [] then {}
    else PairsOfAll(ids[..|ids| - 1], gs, pairs) + PairsOf(gs, pairs, ids[|ids| - 1])
  }

  lemma {:induction false} PairsOfAllMembers(ids: seq<int>, gs: seq<GroupRow>, pairs: seq<Pair>, p: (int, int))
    ensures p in PairsOfAll(ids, gs, pairs) <==> p.0 in ids && p in PairsOf(gs, pairs, p.0)
    decreases |ids|
  {
    if ids != [] {
      var n := |ids| - 1;
      PairsOfAllMembers(ids[..n], gs, pairs, p);
      assert p.0 in ids <==> p.0 == ids[n] || p.0 in ids[..n];
    }
  }

  lemma {:induction false} CountOwned(gs: seq<GroupRow>, pairs: seq<Pair>, account: int)
    requires DistinctIds(gs)
    ensures |PairsOf(gs, pairs, account)| == |OwnedBy(gs, pairs, account)|
    decreases |gs|
  {
    if gs != [] {
      var n := |gs| - 1;
      CountOwned(gs[..n], pairs, account);
      var before := PairsOf(gs[..n], pairs, account);
      assert forall g :: g in gs <==> g == gs[n] || g in gs[..n];
      assert (account, gs[n].id) !in before;
      assert PairsOf(gs, pairs, account) == before + (if Paired(pairs, account, gs[n].id) then {(account, gs[n].id)} else {});
    }
  }

  function OwnedCounts(ids: seq<int>, gs: seq<GroupRow>, pairs: seq<Pair>): seq<nat> {
    seq(|ids|, i requires 0 <= i < |ids| => |OwnedBy(gs, pairs, ids[i])|)
  }

  lemma {:induction false} CountAll(ids: seq<int>, gs: seq<GroupRow>, pairs: seq<Pair>)
    requires DistinctIds(gs) && Distinct(ids)
    ensures Sum(OwnedCounts(ids, gs, pairs)) == |PairsOfAll(ids, gs, pairs)|
    decreases |ids|
  {
    if ids != [] {
      var n := |ids| - 1;
      CountAll(ids[..n], gs, pairs);
      CountOwned(gs, pairs, ids[n]);
      assert OwnedCounts(ids, gs, pairs)[..n] == OwnedCounts(ids[..n], gs, pairs);
      forall p | p in PairsOf(gs, pairs, ids[n])
        ensures p !in PairsOfAll(ids[..n], gs, pairs)
      {
        PairsOfAllMembers(ids[..n], gs, pairs, p);
      }
    }
  }

  /** The total number of groups attached is the number of distinct (account, group) pairs. */
  lemma {:induction false} GroupTotal(ids: seq<int>, pairs: seq<Pair>)
    requires Distinct(ids) && forall p <- pairs :: p.0 in ids
    ensures Sum(OwnedCounts(ids, FirstGroups(pairs), pairs)) == |PairIds(pairs)|
  {
    var gs := FirstGroups(pairs);
    FirstGroupsDistinct(pairs);
    FirstGroupsExact(pairs);
    CountAll(ids, gs, pairs);
    forall k: (int, int)
      ensures k in PairsOfAll(ids, gs, pairs) <==> k in PairIds(pairs)
    {
      PairsOfAllMembers(ids, gs, pairs, k);
      assert k in PairIds(pairs) <==> Paired(pairs, k.0, k.1);
      if Paired(pairs, k.0, k.1) {
        var p :| p in pairs && p.0 == k.0 && p.1.id == k.1;
        var g :| g in gs && g.id == k.1;
      }
    }
    assert PairsOfAll(ids, gs, pairs) == PairIds(pairs);
  }
}
