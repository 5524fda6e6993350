/** How records are brought together by operation and call-site id: what ends up in one place, and
    that it depends neither on the order of arrival nor on which ids were given. */
module Grouping {
  import opened CallsiteStats
  import opened Folds
  import opened Sequences
  import opened SourceIds

  /** A record as it arrives: operation, rank, what its stack is identified by, and its statistics. */
  datatype Input = Input(op: int, rank: int, key: IdKey, stats: SoundStats)

  /** Where records meet; in tables that put all ranks together the rank is -1. */
  datatype Site = Site(op: int, csid: int, rank: int)

  /** The records that met at each site, in order of arrival. */
  type Groups = map<Site, seq<Input>>

  function GroupAt(m: Groups, s: Site): seq<Input> {
    if s in m then m[s] else []
  }

  function SiteFor(op: int, csid: int, rank: int, byRank: bool): Site {
    Site(op, csid, if byRank then rank else -1)
  }

  function SiteOf(ids: Ids, p: Input, byRank: bool): Site {
    SiteFor(p.op, Queried(ids, p.key).cache[p.key], p.rank, byRank)
  }

  function GroupInsert(ids: Ids, m: Groups, p: Input, byRank: bool): Groups {
    var s := SiteOf(ids, p, byRank);
    m[s := GroupAt(m, s) + [p]]
  }

  function IdsAfter(ids: Ids, xs: seq<Input>): Ids
    decreases |xs|
  {
    if xs == [] then ids else Queried(IdsAfter(ids, xs[..|xs| - 1]), xs[|xs| - 1].key)
  }

  function GroupsOf(ids: Ids, xs: seq<Input>, byRank: bool): Groups
    decreases |xs|
  {
    if xs == [] then map[]
    else
      var n := |xs| - 1;
      GroupInsert(IdsAfter(ids, xs[..n]), GroupsOf(ids, xs[..n], byRank), xs[n], byRank)
  }

  // ---------- Selections of records ----------

  datatype Sel =
    | All
    | OfRank(rank: int)
    | OfOp(op: int)
    | OfSite(op: int, key: IdKey)
    | OfSiteAndRank(op: int, key: IdKey, rank: int)

  predicate Matches(sel: Sel, p: Input) {
    match sel
    case All => true
    case OfRank(r) => p.rank == r
    case OfOp(op) => p.op == op
    case OfSite(op, k) => p.op == op && p.key == k
    case OfSiteAndRank(op, k, r) => p.op == op && p.key == k && p.rank == r
  }

  function Test(sel: Sel): Input -> bool {
    p => Matches(sel, p)
  }

  function Select(xs: seq<Input>, sel: Sel): seq<Input> {
    Filter(xs, Test(sel))
  }

  // ---------- What meets at a site ----------

  /** All keys of the id cache are of one kind: with stacks, or without. */
  ghost predicate OneKind(ids: Ids, stackless: bool) {
    forall k <- ids.cache :: k.ById? == stackless
  }

  ghost predicate KeysOfKind(xs: seq<Input>, stackless: bool) {
    forall i :: 0 <= i < |xs| ==> xs[i].key.ById? == stackless
  }

  /** Different keys have different ids. */
  ghost predicate OneToOne(ids: Ids) {
    forall k, l :: k in ids.cache && l in ids.cache && ids.cache[k] == ids.cache[l] ==> k == l
  }

  lemma QueriedOneToOne(s: Ids, k: IdKey, stackless: bool)
    requires IdsOk(s) && OneKind(s, stackless) && k.ById? == stackless
    ensures IdsOk(Queried(s, k)) && OneKind(Queried(s, k), stackless) && OneToOne(Queried(s, k))
  {
    QueriedOk(s, k);
  }

  function SelFor(op: int, key: IdKey, rank: int, byRank: bool): Sel {
    if byRank then OfSiteAndRank(op, key, rank) else OfSite(op, key)
  }

  /** The group of an operation and a key, and of a rank where ranks are kept apart, is the selection
      of just these. */
  ghost predicate GroupOk(ids: Ids, m: Groups, xs: seq<Input>, byRank: bool, op: int, key: IdKey, rank: int)
    requires key in ids.cache
  {
    var s, sel := SiteFor(op, ids.cache[key], rank, byRank), SelFor(op, key, rank, byRank);
    (s in m <==> Select(xs, sel) != []) && GroupAt(m, s) == Select(xs, sel)
  }

  ghost predicate GroupsOk(ids: Ids, m: Groups, xs: seq<Input>, byRank: bool) {
    && (forall i :: 0 <= i < |xs| ==> xs[i].key in ids.cache)
    && (forall op, key, rank :: key in ids.cache ==> GroupOk(ids, m, xs, byRank, op, key, rank))
    && (forall s <- m :: exists key :: key in ids.cache && ids.cache[key] == s.csid)
  }

  lemma NewKey(ids: Ids, m: Groups, xs: seq<Input>, byRank: bool, op: int, key: IdKey, rank: int)
    requires GroupsOk(ids, m, xs, byRank) && key !in ids.cache
    ensures Select(xs, SelFor(op, key, rank, byRank)) == []
  {
    FilterNone(xs, Test(SelFor(op, key, rank, byRank)));
    assert forall i :: 0 <= i < |xs| ==> xs[i].key in ids.cache;
  }

  /** A site with a new id is not in the table yet. */
  lemma NewSite(ids: Ids, m: Groups, xs: seq<Input>, byRank: bool, k: IdKey, s: Site)
    requires GroupsOk(ids, m, xs, byRank) && OneToOne(Queried(ids, k))
    requires k !in ids.cache && s.csid == Queried(ids, k).cache[k]
    ensures s !in m
  {
    var ids' := Queried(ids, k);
    forall u | u in m ensures u.csid != s.csid {
      var other :| other in ids.cache && ids.cache[other] == u.csid;
      assert other in ids'.cache && ids'.cache[other] == u.csid;
    }
  }

  /** The site of an input is that of a key exactly when the input is selected for it. */
  lemma SameSite(ids: Ids, p: Input, byRank: bool, op: int, key: IdKey, rank: int)
    requires OneToOne(Queried(ids, p.key)) && key in Queried(ids, p.key).cache
    ensures SiteOf(ids, p, byRank) == SiteFor(op, Queried(ids, p.key).cache[key], rank, byRank) <==>
            Test(SelFor(op, key, rank, byRank))(p)
  {
  }

  lemma InsertGroupOk(ids: Ids, m: Groups, xs: seq<Input>, byRank: bool, p: Input, op: int, key: IdKey, rank: int)
    requires GroupsOk(ids, m, xs, byRank) && key in Queried(ids, p.key).cache && OneToOne(Queried(ids, p.key))
    ensures GroupOk(Queried(ids, p.key), GroupInsert(ids, m, p, byRank), xs + [p], byRank, op, key, rank)
  {
    var ids', sel := Queried(ids, p.key), SelFor(op, key, rank, byRank);
    var s := SiteFor(op, ids'.cache[key], rank, byRank);
    FilterNext(xs, p, Test(sel));
    SameSite(ids, p, byRank, op, key, rank);
    if key in ids.cache {
      assert GroupOk(ids, m, xs, byRank, op, key, rank);
    } else {
      NewKey(ids, m, xs, byRank, op, key, rank);
      NewSite(ids, m, xs, byRank, key, s);
    }
    assert GroupAt(m, s) == Select(xs, sel);
  }

  lemma InsertGroupsOk(ids: Ids, m: Groups, xs: seq<Input>, byRank: bool, p: Input)
    requires GroupsOk(ids, m, xs, byRank) && OneToOne(Queried(ids, p.key))
    ensures GroupsOk(Queried(ids, p.key), GroupInsert(ids, m, p, byRank), xs + [p], byRank)
  {
    var ids', m' := Queried(ids, p.key), GroupInsert(ids, m, p, byRank);
    forall op, key, rank | key in ids'.cache ensures GroupOk(ids', m', xs + [p], byRank, op, key, rank) {
      InsertGroupOk(ids, m, xs, byRank, p, op, key, rank);
    }
    forall s | s in m' ensures exists key :: key in ids'.cache && ids'.cache[key] == s.csid {
      if s in m {
        var key :| key in ids.cache && ids.cache[key] == s.csid;
        assert key in ids'.cache && ids'.cache[key] == s.csid;
      }
    }
  }

  /** Records meet exactly when they share operation and stack, and the rank where ranks are kept
      apart: through the ids, each group is the selection of what belongs together. */
  lemma {:induction false} GroupsAreSelections(ids: Ids, xs: seq<Input>, byRank: bool, stackless: bool)
    requires IdsOk(ids) && OneKind(ids, stackless) && KeysOfKind(xs, stackless)
    ensures GroupsOk(IdsAfter(ids, xs), GroupsOf(ids, xs, byRank), xs, byRank)
    ensures IdsOk(IdsAfter(ids, xs)) && OneKind(IdsAfter(ids, xs), stackless) && OneToOne(IdsAfter(ids, xs))
    decreases |xs|
  {
    if xs != [] {
      var n := |xs| - 1;
      GroupsAreSelections(ids, xs[..n], byRank, stackless);
      QueriedOneToOne(IdsAfter(ids, xs[..n]), xs[n].key, stackless);
      InsertGroupsOk(IdsAfter(ids, xs[..n]), GroupsOf(ids, xs[..n], byRank), xs[..n], byRank, xs[n]);
      assert xs[..n] + [xs[n]] == xs;
    }
  }
}
