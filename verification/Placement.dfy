/**
 * Where unassigned shares go: which instance fits, when a share cannot be placed, and what placing one
 * share does to the agreement already reached.
 */
module Placement {
  import opened Wrappers
  import opened Objects
  import opened Capacity
  import opened PointerRepair

  /** instanceFitShare. */
  predicate Fits(i: InstanceInfo, a: ShareInfo, g: Pools) {
    && !i.deleting && i.poolTag == a.tag
    && (i.status.Some? ==> |i.Names()| < g.MaxCount(i) && i.status.value.phase != Updating)
  }

  /**
   * A share fits exactly where nothing stands against it: the instance is not on its way out, is of the
   * share's pool, has not reached the count of its own parameter, and is not in trouble.
   */
  lemma FitsExactly(i: InstanceInfo, a: ShareInfo, g: Pools)
    ensures Fits(i, a, g) <==> !(i.deleting || i.poolTag != a.tag || IsFull(i, g.feature) || InTrouble(i))
  {
  }

  /** The four sizes a parameter may have, and the share counts that go with them; ten shares without one. */
  predicate IsFull(i: InstanceInfo, feature: bool) {
    var count := if !feature then 10
                 else if i.params == Size(128 * GB) then 80
                 else if i.params == Size(256 * GB) then 40
                 else if i.params == Size(512 * GB) then 20
                 else 10;
    i.status.Some? && |i.status.value.shareNames| >= count
  }

  predicate InTrouble(i: InstanceInfo) {
    i.status.Some? && i.status.value.phase == Updating
  }

  /** A share for which nothing can be done: it is going, has no pool, or its pool has neither room nor StorageClass. */
  ghost predicate Unassignable(a: ShareInfo, li: map<Uri, InstanceInfo>, g: Pools) {
    a.deleting || a.tag == "" || (!g.HasClass(a.tag) && FitsNowhere(a, li, g))
  }

  ghost predicate FitsNowhere(a: ShareInfo, li: map<Uri, InstanceInfo>, g: Pools) {
    forall u | u in li :: !Fits(li[u], a, g)
  }

  /** The share and an instance of its own pool point to each other. */
  ghost predicate Placed(s: Name, a: ShareInfo, li: map<Uri, InstanceInfo>) {
    Lists(li, a.Handle(), s) && li[a.Handle()].poolTag == a.tag
  }

  /** Everything listed points back, up to shares that cannot be sent home. */
  ghost predicate AllSettled(li: map<Uri, InstanceInfo>, ls: map<Name, ShareInfo>, g: Pools) {
    forall u | u in li :: PointsBack(li, ls, u, li.Keys, g)
  }

  /** Every listed share points back, or its pool has no StorageClass. */
  ghost predicate AllBack(li: map<Uri, InstanceInfo>, ls: map<Name, ShareInfo>, g: Pools) {
    forall u | u in li :: PointsBack(li, ls, u, {}, g)
  }

  /** No instance has gone, and what its status says besides the names it lists is as it was. */
  ghost predicate StatusKept(before: map<Uri, InstanceInfo>, after: map<Uri, InstanceInfo>) {
    forall u | u in before :: u in after && SameStatus(before[u], after[u])
  }

  ghost predicate SameStatus(i: InstanceInfo, i': InstanceInfo) {
    i.status.Some? ==> i'.status.Some? && i'.status.value == i.status.value.(shareNames := i'.status.value.shareNames)
  }

  /** The instance lists the share already, or may list it too. */
  ghost predicate MayList(i: InstanceInfo, s: Name, g: Pools) {
    s in i.Names() || (!i.deleting && |i.Names()| < g.MaxCount(i) && g.tagOf(s) == i.poolTag)
  }

  /** Adding a share to an instance of its own pool that has room keeps the invariant. */
  lemma AddShareKeeps(w: World, g: Pools, u: Uri, s: Name, a: ShareInfo)
    requires Safe(w, g) && u in w.instances && ShareInPool(s, a, g)
    requires Fits(w.instances[u], a, g)
    ensures Safe(w.(instances := w.instances[u := WithShare(w.instances[u], s)]), g)
  {
    var i := w.instances[u];
    CountTimesSizeIsMax(g.feature, i.params);
    InstanceChangeKeeps(w, g, u, WithShare(i, s));
  }

  /** What generateInstanceInfo creates for a share. */
  function NewFor(a: ShareInfo): InstanceInfo {
    InstanceInfo(false, 1, a.tag, a.params, MIN_INSTANCE, None)
  }

  /**
   * A new instance has room for the share, and for as many of the largest shares of the share's class as
   * make up the largest instance; and it goes once its one finalizer is dropped.
   */
  lemma NewTakesItsClass(s: Name, a: ShareInfo, g: Pools)
    requires ShareInPool(s, a, g)
    ensures Fits(NewFor(a), a, g) && a.capacity <= NewFor(a).capacity == TB && NewFor(a).finalizers == 1
    ensures g.MaxCount(NewFor(a)) * MaxSharePerVolume(g.feature, a.params) == 10 * TB
  {
    CountTimesSizeIsMax(g.feature, a.params);
  }

  /** The instance with the share appended, unless it lists it already. */
  function WithShare(i: InstanceInfo, s: Name): (r: InstanceInfo)
    ensures s in r.Names() && r.poolTag == i.poolTag && r.deleting == i.deleting
    ensures forall n :: n in r.Names() <==> n in i.Names() || n == s
  {
    if s in i.Names() then i else i.WithNames(i.Names() + [s])
  }

  /** One share placed: an existing or fresh instance of its pool lists it now, and nothing else changed. */
  ghost predicate Listed(li: map<Uri, InstanceInfo>, li': map<Uri, InstanceInfo>, s: Name, u: Uri, tag: Tag, g: Pools) {
    && u != "" && li'.Keys == li.Keys + {u} && Lists(li', u, s) && li'[u].poolTag == tag
    && (forall v | v in li && v != u :: li'[v] == li[v])
    && (if u in li then li'[u] == WithShare(li[u], s)
        else li'[u].Names() == [s] && g.HasClass(tag))
  }

  /** Placing keeps what was settled, what was placed, and what cannot be placed. */
  lemma PlacedStep(li: map<Uri, InstanceInfo>, ls: map<Name, ShareInfo>, li': map<Uri, InstanceInfo>, s: Name, u: Uri, g: Pools)
    requires s in ls && ls[s].Handle() == "" && "" !in li && Listed(li, li', s, u, ls[s].tag, g)
    requires u !in li ==> forall n | n in ls :: ls[n].Handle() != u
    ensures var ls' := ls[s := ls[s].WithHandle(u)];
            && Placed(s, ls'[s], li')
            && (AllSettled(li, ls, g) ==> AllSettled(li', ls', g)) && (AllBack(li, ls, g) ==> AllBack(li', ls', g))
            && (forall n | n in ls && n != s && Placed(n, ls[n], li) :: Placed(n, ls'[n], li'))
            && (forall n | n in ls && n != s && Unassignable(ls[n], li, g) :: Unassignable(ls'[n], li', g))
  {
    var ls' := ls[s := ls[s].WithHandle(u)];
    if AllSettled(li, ls, g) {
      forall v | v in li' ensures PointsBack(li', ls', v, li'.Keys, g) {
        SettledStep(li, ls, li', s, u, v, g);
      }
    }
    if AllBack(li, ls, g) {
      forall v | v in li' ensures PointsBack(li', ls', v, {}, g) {
        BackStays(li, ls, li', s, u, v, g);
      }
    }
    forall n | n in ls && n != s && Unassignable(ls[n], li, g) ensures Unassignable(ls'[n], li', g) {
      if !ls[n].deleting && ls[n].tag != "" {
        forall v | v in li' ensures !Fits(li'[v], ls[n], g) {
          assert v in li ==> !Fits(li[v], ls[n], g);
        }
      }
    }
  }

  /** Each of these shares has an instance or cannot be placed. */
  ghost predicate Handled(done: seq<Name>, li: map<Uri, InstanceInfo>, ls: map<Name, ShareInfo>, g: Pools) {
    forall s | s in done && s in ls :: ls[s].Handle() != "" || Unassignable(ls[s], li, g)
  }

  lemma HandledNext(done: seq<Name>, s: Name, li: map<Uri, InstanceInfo>, ls: map<Name, ShareInfo>, g: Pools)
    requires s in ls
    ensures Handled(done + [s], li, ls, g) <==> Handled(done, li, ls, g) && (ls[s].Handle() != "" || Unassignable(ls[s], li, g))
  {
  }

  /** Every share has an instance or cannot be placed. */
  ghost predicate NoneToPlace(li: map<Uri, InstanceInfo>, ls: map<Name, ShareInfo>, g: Pools) {
    forall s | s in ls :: ls[s].Handle() != "" || Unassignable(ls[s], li, g)
  }

  /** Each share that got an instance is placed. */
  ghost predicate NewlyPlaced(before: map<Name, ShareInfo>, li: map<Uri, InstanceInfo>, ls: map<Name, ShareInfo>) {
    && ls.Keys == before.Keys
    && forall s | s in ls && before[s].Handle() == "" && ls[s].Handle() != "" :: Placed(s, ls[s], li)
  }

  /** No instance has lost a name. */
  ghost predicate NamesKept(before: map<Uri, InstanceInfo>, after: map<Uri, InstanceInfo>) {
    forall u, n | Lists(before, u, n) :: Lists(after, u, n)
  }

  /** Every listed share that has an object has an instance. */
  ghost predicate AllClaimed(li: map<Uri, InstanceInfo>, ls: map<Name, ShareInfo>) {
    forall u, n | Lists(li, u, n) && n in ls :: ls[n].Handle() != ""
  }

  /** Placing settles nothing that was not settled. */
  lemma UnsettledStays(li: map<Uri, InstanceInfo>, ls: map<Name, ShareInfo>, li': map<Uri, InstanceInfo>, ls': map<Name, ShareInfo>, g: Pools)
    requires AllClaimed(li, ls) && NamesKept(li, li') && li.Keys <= li'.Keys && HandlesKept(ls, ls') && AllSettled(li', ls', g)
    ensures AllSettled(li, ls, g)
  {
    forall u | u in li ensures PointsBack(li, ls, u, li.Keys, g) {
      forall n | n in li[u].Names() ensures MayStay(n, u, ls, li.Keys, g) {
        assert Lists(li, u, n) && Lists(li', u, n);
        assert PointsBack(li', ls', u, li'.Keys, g) && MayStay(n, u, ls', li'.Keys, g);
      }
    }
  }

  /** What the whole stage leaves, when no call fails. */
  ghost predicate AllPlaced(before: map<Name, ShareInfo>, first: map<Uri, InstanceInfo>, ls: map<Name, ShareInfo>, li: map<Uri, InstanceInfo>, g: Pools) {
    && NewlyPlaced(before, li, ls) && NoneToPlace(li, ls, g)
    && first.Keys <= li.Keys && NamesKept(first, li)
    && (AllSettled(first, before, g) ==> AllSettled(li, ls, g)) && (AllBack(first, before, g) ==> AllBack(li, ls, g))
    && StatusKept(first, li)
  }

  /** One more share placed where it fits, in a new instance only if it fits nowhere; or found impossible to place. */
  ghost predicate Outcome(li: map<Uri, InstanceInfo>, ls: map<Name, ShareInfo>, li': map<Uri, InstanceInfo>, ls': map<Name, ShareInfo>,
                          s: Name, u: Uri, g: Pools)
    requires s in ls
  {
    if u == "" then ls' == ls && li' == li && (ls[s].Handle() != "" || Unassignable(ls[s], li, g))
    else
      && ls[s].Handle() == "" && ls' == ls[s := ls[s].WithHandle(u)]
      && Enlisted(li, ls, li', s, u, g)
  }

  /** An instance lists the share now: one in which it fits or, if there is none, a new one for its pool. */
  ghost predicate Enlisted(li: map<Uri, InstanceInfo>, ls: map<Name, ShareInfo>, li': map<Uri, InstanceInfo>, s: Name, u: Uri, g: Pools)
    requires s in ls
  {
    && u != ""
    && if u in li then Fits(li[u], ls[s], g) && li' == li[u := WithShare(li[u], s)]
       else
         && li' == li[u := WithShare(NewFor(ls[s]), s)] && g.HasClass(ls[s].tag)
         && (forall n | n in ls :: ls[n].Handle() != u) && FitsNowhere(ls[s], li, g)
  }

  /** The stage when these shares have been dealt with, as long as no call fails. */
  ghost predicate PlacedSoFar(before: map<Name, ShareInfo>, first: map<Uri, InstanceInfo>, done: seq<Name>,
                              ls: map<Name, ShareInfo>, li: map<Uri, InstanceInfo>, g: Pools) {
    && Handled(done, li, ls, g) && NewlyPlaced(before, li, ls) && first.Keys <= li.Keys && NamesKept(first, li)
    && (AllSettled(first, before, g) ==> AllSettled(li, ls, g)) && (AllBack(first, before, g) ==> AllBack(li, ls, g))
    && StatusKept(first, li)
  }

  lemma EnlistedIsListed(li: map<Uri, InstanceInfo>, ls: map<Name, ShareInfo>, li': map<Uri, InstanceInfo>, s: Name, u: Uri, g: Pools)
    requires s in ls && "" !in li && Enlisted(li, ls, li', s, u, g)
    ensures Listed(li, li', s, u, ls[s].tag, g) && NamesKept(li, li') && StatusKept(li, li')
    ensures u !in li ==> forall n | n in ls :: ls[n].Handle() != u
  {
  }

  lemma OutcomeStep(before: map<Name, ShareInfo>, first: map<Uri, InstanceInfo>, li: map<Uri, InstanceInfo>, ls: map<Name, ShareInfo>,
                    li': map<Uri, InstanceInfo>, ls': map<Name, ShareInfo>, done: seq<Name>, s: Name, u: Uri, g: Pools)
    requires s in ls && "" !in li && Outcome(li, ls, li', ls', s, u, g)
    requires PlacedSoFar(before, first, done, ls, li, g)
    ensures PlacedSoFar(before, first, done + [s], ls', li', g)
  {
    if u != "" {
      EnlistedIsListed(li, ls, li', s, u, g);
      PlacedStep(li, ls, li', s, u, g);
      PlacedNext(before, first, li, ls, li', ls', done, s, g);
    }
  }

  lemma PlacedNext(before: map<Name, ShareInfo>, first: map<Uri, InstanceInfo>, li: map<Uri, InstanceInfo>, ls: map<Name, ShareInfo>,
                   li': map<Uri, InstanceInfo>, ls': map<Name, ShareInfo>, done: seq<Name>, s: Name, g: Pools)
    requires PlacedSoFar(before, first, done, ls, li, g) && NamesKept(li, li') && StatusKept(li, li')
    requires s in ls && s in ls' && ls' == ls[s := ls'[s]] && ls[s].Handle() == "" && ls'[s].Handle() != "" && Placed(s, ls'[s], li')
    requires (AllSettled(li, ls, g) ==> AllSettled(li', ls', g)) && (AllBack(li, ls, g) ==> AllBack(li', ls', g))
    requires forall n | n in ls && n != s && Placed(n, ls[n], li) :: Placed(n, ls'[n], li')
    requires forall n | n in ls && n != s && Unassignable(ls[n], li, g) :: Unassignable(ls'[n], li', g)
    ensures PlacedSoFar(before, first, done + [s], ls', li', g)
  {
    HandledStays(done, s, li, ls, li', ls', g);
    NewlyPlacedStays(before, s, li, ls, li', ls');
    StatusKeptTransitive(first, li, li');
    assert NamesKept(first, li') by {
      forall u, n | Lists(first, u, n) ensures Lists(li', u, n) {
        assert Lists(li, u, n);
      }
    }
  }

  lemma NewlyPlacedStays(before: map<Name, ShareInfo>, s: Name, li: map<Uri, InstanceInfo>, ls: map<Name, ShareInfo>, li': map<Uri, InstanceInfo>,
                         ls': map<Name, ShareInfo>)
    requires NewlyPlaced(before, li, ls) && s in ls && s in ls' && ls' == ls[s := ls'[s]] && Placed(s, ls'[s], li')
    requires forall n | n in ls && n != s && Placed(n, ls[n], li) :: Placed(n, ls'[n], li')
    ensures NewlyPlaced(before, li', ls')
  {
  }

  lemma HandledStays(done: seq<Name>, s: Name, li: map<Uri, InstanceInfo>, ls: map<Name, ShareInfo>, li': map<Uri, InstanceInfo>,
                     ls': map<Name, ShareInfo>, g: Pools)
    requires Handled(done, li, ls, g) && s in ls && s in ls' && ls' == ls[s := ls'[s]] && ls'[s].Handle() != ""
    requires forall n | n in ls && n != s && Unassignable(ls[n], li, g) :: Unassignable(ls'[n], li', g)
    ensures Handled(done + [s], li', ls', g)
  {
  }

  lemma StatusKeptTransitive(a: map<Uri, InstanceInfo>, b: map<Uri, InstanceInfo>, c: map<Uri, InstanceInfo>)
    requires StatusKept(a, b) && StatusKept(b, c)
    ensures StatusKept(a, c)
  {
    forall u | u in a ensures u in c && SameStatus(a[u], c[u]) {
      assert SameStatus(a[u], b[u]) && SameStatus(b[u], c[u]);
    }
  }

  lemma SettledStep(li: map<Uri, InstanceInfo>, ls: map<Name, ShareInfo>, li': map<Uri, InstanceInfo>, s: Name, u: Uri, v: Uri, g: Pools)
    requires s in ls && ls[s].Handle() == "" && "" !in li && Listed(li, li', s, u, ls[s].tag, g)
    requires u !in li ==> forall n | n in ls :: ls[n].Handle() != u
    requires AllSettled(li, ls, g) && v in li'
    ensures PointsBack(li', ls[s := ls[s].WithHandle(u)], v, li'.Keys, g)
  {
    var ls' := ls[s := ls[s].WithHandle(u)];
    forall n | n in li'[v].Names() ensures MayStay(n, v, ls', li'.Keys, g) {
      if v in li && n in li[v].Names() {
        assert PointsBack(li, ls, v, li.Keys, g);
        assert MayStay(n, v, ls, li.Keys, g);
      }
    }
  }

  lemma BackStays(li: map<Uri, InstanceInfo>, ls: map<Name, ShareInfo>, li': map<Uri, InstanceInfo>, s: Name, u: Uri, v: Uri, g: Pools)
    requires s in ls && ls[s].Handle() == "" && "" !in li && Listed(li, li', s, u, ls[s].tag, g)
    requires AllBack(li, ls, g) && v in li'
    ensures PointsBack(li', ls[s := ls[s].WithHandle(u)], v, {}, g)
  {
    forall n | n in li'[v].Names() ensures MayStay(n, v, ls[s := ls[s].WithHandle(u)], {}, g) {
      if v in li && n in li[v].Names() {
        assert PointsBack(li, ls, v, {}, g);
        assert MayStay(n, v, ls, {}, g);
      }
    }
  }

  /** There is always another URI. */
  lemma {:induction false} LongerUri(taken: set<Uri>) returns (u: Uri)
    ensures u != "" && forall v | v in taken :: |v| < |u|
  {
    if taken == {} {
      u := "x";
    } else {
      var v :| v in taken;
      var w := LongerUri(taken - {v});
      u := v + w;
    }
  }
}
