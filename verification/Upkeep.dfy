/**
 * What the reconciler's copies have to do with the world while it assigns shares, and what its writes
 * keep of that and of the invariant.
 */
module Upkeep {
  import opened Wrappers
  import opened Objects
  import opened Capacity
  import opened PointerRepair
  import opened Placement
  import opened RepairRun
  import opened Sizing
  import opened ApiServer
  import opened Observation

  /** Copied shares are older versions of the stored ones, copied instances are the stored ones, and the invariant holds. */
  ghost predicate Work(c: Copies, w: World, g: Pools, sound: bool) {
    && InStep(c.ls, w.shares) && Mirrors(c.li, w.instances) && Tidy(c.li)
    && (sound ==> SoundFor(c.ls, w, g))
  }

  ghost predicate SoundFor(ls: map<Name, ShareInfo>, w: World, g: Pools) {
    Safe(w, g) && CopiesSafe(ls, w.instances, g)
  }

  lemma InStepLater(ls: map<Name, ShareInfo>, before: map<Name, ShareInfo>, after: map<Name, ShareInfo>)
    requires InStep(ls, before) && Later(before, after)
    ensures InStep(ls, after)
  {
    forall s | s in ls ensures Tracks(ls[s], s, after) {
      assert Tracks(ls[s], s, before);
    }
  }

  lemma WorkLater(c: Copies, w: World, mid: World, g: Pools, sound: bool)
    requires Work(c, w, g, sound) && Between(w, mid) && (sound ==> Safe(mid, g))
    ensures Work(c, mid, g, sound)
  {
    InStepLater(c.ls, w.shares, mid.shares);
  }

  /** A share is given the handle of an instance that lists it. */
  lemma HandleWritten(c: Copies, w: World, s: Name, a: ShareInfo, u: Uri, g: Pools, sound: bool)
    requires Work(c, w, g, sound) && s in c.ls && c.ls[s].Handle() == "" && s in w.shares && w.shares[s] == c.ls[s]
    requires Lists(w.instances, u, s) && a == c.ls[s].WithHandle(u)
    ensures Work(c.(ls := c.ls[s := a]), w.(shares := w.shares[s := a]), g, sound)
  {
    if sound {
      AssignHandleKeeps(w, g, s, u);
      assert CopySafe(s, c.ls[s], w.instances, g);
    }
  }

  /** An instance lists one more share of its pool. */
  lemma NameWritten(c: Copies, w: World, u: Uri, s: Name, g: Pools, sound: bool)
    requires Work(c, w, g, sound) && u in w.instances && u != ""
    requires Distinct(w.instances[u].Names()) && (sound ==> MayList(w.instances[u], s, g))
    ensures var i := WithShare(w.instances[u], s); Work(c.(li := c.li[u := i]), w.(instances := w.instances[u := i]), g, sound)
  {
    var i := WithShare(w.instances[u], s);
    if sound {
      InstanceChangeKeeps(w, g, u, i);
      CopiesStaySafe(c.ls, w.instances, w.instances[u := i], u, g);
    }
  }

  /** Where a copied share fits, it may be listed. */
  lemma FitsMayList(c: Copies, w: World, u: Uri, s: Name, g: Pools)
    requires Work(c, w, g, true) && s in c.ls && u in c.li && Fits(c.li[u], c.ls[s], g)
    ensures MayList(c.li[u], s, g)
  {
    assert CopySafe(s, c.ls[s], w.instances, g);
    CountTimesSizeIsMax(g.feature, c.li[u].params);
  }

  lemma NewMayList(c: Copies, w: World, s: Name, g: Pools)
    requires Work(c, w, g, true) && s in c.ls
    ensures MayList(NewFor(c.ls[s]), s, g)
  {
    assert CopySafe(s, c.ls[s], w.instances, g);
    CountTimesSizeIsMax(g.feature, c.ls[s].params);
  }

  /** A new instance, not copied yet. */
  lemma InstanceWritten(c: Copies, w: World, u: Uri, i: InstanceInfo, g: Pools, sound: bool)
    requires Work(c, w, g, sound) && u !in w.instances && u != "" && !i.deleting && i.status.None?
    ensures Work(c, w.(instances := w.instances[u := i]), g, sound)
  {
    if sound {
      CreateInstanceKeeps(w, g, u, i);
      CopiesStaySafe(c.ls, w.instances, w.instances[u := i], u, g);
    }
  }

  /** The visited instance drops the shares that belong elsewhere. */
  lemma DropWritten(c: Copies, w: World, u: Uri, kept: seq<Name>, homes: set<Uri>, g: Pools, sound: bool)
    requires Work(c, w, g, sound) && u in c.li && Dropped(c.li[u].Names(), kept, u, c.ls, homes)
    ensures var i := c.li[u].WithNames(kept); Work(c.(li := c.li[u := i]), w.(instances := w.instances[u := i]), g, sound)
  {
    if sound { DropSharesKeeps(w, g, c.ls, u, c.li[u].WithNames(kept), homes); }
  }

  /** A share looked up in the store has grown at most. */
  lemma LookedUp(names: seq<Name>, k: nat, ls: map<Name, ShareInfo>, shares: map<Name, ShareInfo>, total: int)
    requires InStep(ls, shares) && k < |names| && total >= Sum(CapsOf(names[..k], Live(ls)))
    requires forall s | s in shares :: shares[s].capacity >= 0
    ensures total + (if names[k] in shares then shares[names[k]].capacity else 0) >= Sum(CapsOf(names[..k + 1], Live(ls)))
  {
    SumOfCapsStep(names, k, Live(ls));
    assert names[k] in Live(ls) ==> Tracks(ls[names[k]], names[k], shares);
  }

  lemma CopiesCovered(i: InstanceInfo, ls: map<Name, ShareInfo>, total: int, instances: map<Uri, InstanceInfo>, g: Pools)
    requires CopiesSafe(ls, instances, g) && total >= Sum(CapsOf(i.Names(), Live(ls)))
    ensures Covers(i.(capacity := NewCapacity(total, i.StatusOrNew().stepGb)), ls)
  {
    forall s | s in ls ensures ShareInPool(s, ls[s], g) {
      assert CopySafe(s, ls[s], instances, g);
    }
    TargetCovers(i, ls, total, g);
  }

  /** An empty instance is marked, in the store only. */
  lemma MarkWritten(ls: map<Name, ShareInfo>, li: map<Uri, InstanceInfo>, condemned: set<Uri>, w: World, u: Uri, g: Pools, sound: bool)
    requires Work(Copies(ls, Marked(li, condemned)), w, g, sound) && u in li && u !in condemned && InstanceEmpty(li[u])
    ensures w.instances[u] == li[u]
    ensures var i := li[u].(deleting := true);
            Work(Copies(ls, Marked(li, condemned + {u})), w.(instances := w.instances[u := i]), g, sound)
  {
    var i := li[u].(deleting := true);
    assert Marked(li, condemned)[u] == li[u];
    assert Marked(li, condemned + {u}) == Marked(li, condemned)[u := i];
    if sound { SizingKeeps(w, g, u, i, ls); }
  }

  /** An instance is to have another capacity. */
  lemma SizeWritten(ls: map<Name, ShareInfo>, li: map<Uri, InstanceInfo>, condemned: set<Uri>, w: World, u: Uri, r: InstanceInfo, g: Pools,
                    sound: bool)
    requires Work(Copies(ls, Marked(li, condemned)), w, g, sound) && u in li && u !in condemned && r == li[u].(capacity := r.capacity)
    ensures Work(Copies(ls, Marked(li[u := r], condemned)), w.(instances := w.instances[u := r]), g, sound)
  {
    assert Marked(li, condemned)[u] == li[u];
    assert Marked(li[u := r], condemned) == Marked(li, condemned)[u := r];
    if sound { SizingKeeps(w, g, u, r, ls); }
  }

  // The end of the stage.

  /** What the three stages come to when no call fails. */
  lemma StagesEnd(c: Copies, order: seq<Uri>, placed: map<Uri, InstanceInfo>, ls: map<Name, ShareInfo>, g: Pools)
    requires Tidy(c.li) && AnyOrder(c, order)
    requires var d := RepairAll(c, order, g); HandlesKept(d.ls, ls) && AllPlaced(d.ls, d.li, ls, placed, g)
    ensures AssignedWell(c.ls, c.li, ls, SizedAll(placed, ls), g)
    ensures Quiet(SizedAll(placed, ls), ls, g) <==> Settled(RepairAll(c, order, g), g)
  {
    var d := RepairAll(c, order, g);
    RepairEnds(c, order, g);
    AssignedWellStages(c.li, c.ls, d.ls, placed, ls, g);
    SizedIsQuiet(placed, ls, g);
    RepairClaims(c, d, g);
    if AllSettled(placed, ls, g) { UnsettledStays(d.li, d.ls, placed, ls, g); }
  }

  /**
   * The copies once shares are assigned, when no call fails: each listed share points back or has a pool
   * without StorageClass, statuses are as before but for the names, and the stored instances are marked and
   * sized as they should be.
   */
  ghost predicate Assigned(first: map<Uri, InstanceInfo>, c: Copies, instances: map<Uri, InstanceInfo>, g: Pools) {
    AllBack(c.li, c.ls, g) && StatusKept(first, c.li) && AllAfterStage(c.li, instances, c.ls)
  }

  lemma CopiesEnd(c: Copies, order: seq<Uri>, placed: map<Uri, InstanceInfo>, d: Copies, condemned: set<Uri>, instances: map<Uri, InstanceInfo>, g: Pools)
    requires Tidy(c.li) && AnyOrder(c, order)
    requires var r := RepairAll(c, order, g); AllPlaced(r.ls, r.li, d.ls, placed, g)
    requires OnlySized(placed, d.li) && instances == SizedAll(placed, d.ls) && Mirrors(Marked(d.li, condemned), instances)
    ensures Assigned(c.li, d, instances, g)
  {
    var r := RepairAll(c, order, g);
    RepairEnds(c, order, g);
    forall u | u in r.li ensures PointsBack(r.li, r.ls, u, {}, g) {
      assert PointsBack(r.li, r.ls, u, c.li.Keys, g);
    }
    RepairKeepsStatus(c, order, g);
    StatusKeptTransitive(c.li, r.li, placed);
    SizedCopies(placed, d, condemned, instances, g);
    StatusKeptTransitive(c.li, placed, d.li);
  }

  lemma SizedCopies(placed: map<Uri, InstanceInfo>, d: Copies, condemned: set<Uri>, instances: map<Uri, InstanceInfo>, g: Pools)
    requires OnlySized(placed, d.li) && instances == SizedAll(placed, d.ls) && Mirrors(Marked(d.li, condemned), instances)
    requires AllBack(placed, d.ls, g)
    ensures AllBack(d.li, d.ls, g) && StatusKept(placed, d.li) && AllAfterStage(d.li, instances, d.ls)
  {
    SizedAllIsAfterStage(placed, d.ls);
    forall u | u in d.li ensures PointsBack(d.li, d.ls, u, {}, g) && AfterStage(d.li[u], instances[u], d.ls) {
      assert u in Marked(d.li, condemned);
      assert PointsBack(placed, d.ls, u, {}, g) && AfterStage(placed[u], instances[u], d.ls);
    }
  }

  /** What was recorded of the shares stands once they are assigned. */
  lemma RecordedStays(listing: seq<CloudShare>, before: map<Name, ShareInfo>, after: map<Name, ShareInfo>)
    requires Recorded(listing, |listing|, before) && HandlesKept(before, after) && forall c | c in listing :: c.parent != ""
    ensures Recorded(listing, |listing|, after)
  {
    forall j | 0 <= j < |listing| ensures RecordedShare(listing[j], after) {
      assert RecordedShare(listing[j], before) && listing[j] in listing;
    }
  }

  /** What was recorded of the instances stands; the shares that live on them are listed, by the invariant. */
  lemma RecordedInstancesStay(hosts: seq<CloudInstance>, listing: seq<CloudShare>, before: map<Uri, InstanceInfo>, after: map<Uri, InstanceInfo>,
                              condemned: set<Uri>, w: World)
    requires RecordedInstances(hosts, |hosts|, listing, before) && StatusKept(before, after)
    requires Observed(w) && AllHeld(listing, w.cloudShares) && Mirrors(Marked(after, condemned), w.instances)
    ensures RecordedInstances(hosts, |hosts|, listing, after)
  {
    forall j | 0 <= j < |hosts| ensures RecordedInstance(hosts[j], listing, after) {
      var c := hosts[j];
      assert RecordedInstance(c, listing, before) && SameStatus(before[c.uri], after[c.uri]);
      assert c.uri in Marked(after, condemned);
      NamesOnExact(listing, c.uri);
      forall n | n in NamesOn(listing, c.uri) ensures n in after[c.uri].Names() {
        assert ListsShare(listing, n, c.uri) && ObservedShare(w, n, c.uri);
      }
    }
  }

  lemma RepairClaims(c: Copies, d: Copies, g: Pools)
    requires "" !in d.li && forall u | u in d.li :: PointsBack(d.li, d.ls, u, c.li.Keys, g)
    ensures AllClaimed(d.li, d.ls)
  {
    forall u, n | Lists(d.li, u, n) && n in d.ls ensures d.ls[n].Handle() != "" {
      assert PointsBack(d.li, d.ls, u, c.li.Keys, g) && MayStay(n, u, d.ls, c.li.Keys, g);
    }
  }

  // The start of a round.

  lemma ShareRead(c: Copies, w: World, s: Name, g: Pools, sound: bool)
    requires Work(c, w, g, sound) && s in w.shares
    ensures Work(c.(ls := c.ls[s := w.shares[s]]), w, g, sound)
  {
    if sound { ReadIsSafe(w, g, s); }
  }

  lemma OthersRead(c: Copies, w: World, g: Pools, sound: bool)
    requires Work(c, w, g, sound)
    ensures Work(c.(ls := w.shares + c.ls), w, g, sound)
  {
    if sound {
      forall s | s in w.shares ensures CopySafe(s, w.shares[s], w.instances, g) {
        ReadIsSafe(w, g, s);
      }
    }
  }

  /** A share the cloud holds has its object. */
  lemma HeldHasObject(w: World, l: CloudShare, g: Pools, sound: bool)
    requires sound ==> Safe(w, g) && (l.name, l.parent) in w.cloudShares
    ensures sound ==> l.name in w.shares
  {
    if sound { assert ObservedShare(w, l.name, l.parent); }
  }

  lemma ShareAdded(c: Copies, w: World, s: Name, a: ShareInfo, g: Pools)
    requires Work(c, w, g, false) && s !in w.shares
    ensures Work(c.(ls := c.ls[s := a]), w.(shares := w.shares[s := a]), g, false)
  {
  }

  lemma ShareRecorded(c: Copies, w: World, l: CloudShare, st: ShareStatus, g: Pools, sound: bool)
    requires Work(c, w, g, sound) && l.name in c.ls && l.name in w.shares && c.ls[l.name] == w.shares[l.name]
    requires st.handle == l.parent && st.phase != Deleted && (sound ==> (l.name, l.parent) in w.cloudShares)
    ensures var a := c.ls[l.name].(status := Some(st)); Work(c.(ls := c.ls[l.name := a]), w.(shares := w.shares[l.name := a]), g, sound)
  {
    var a := c.ls[l.name].(status := Some(st));
    if sound {
      RecordShareKeeps(w, g, l, st);
      ReadIsSafe(w.(shares := w.shares[l.name := a]), g, l.name);
    }
  }

  lemma InstanceRecorded(c: Copies, w: World, u: Uri, i: InstanceInfo, listing: seq<CloudShare>, g: Pools, sound: bool)
    requires Work(c, w, g, sound) && u in c.li && i == c.li[u].(status := i.status) && NamesAdded(c.li[u], i, NamesOn(listing, u))
    requires sound ==> AllHeld(listing, w.cloudShares)
    ensures Work(c.(li := c.li[u := i]), w.(instances := w.instances[u := i]), g, sound)
  {
    if sound {
      NamesOnExact(listing, u);
      RecordInstanceKeeps(w, g, u, i, NamesOn(listing, u));
      CopiesStaySafe(c.ls, w.instances, w.instances[u := i], u, g);
    }
  }

  lemma InstanceReleased(c: Copies, w: World, u: Uri, g: Pools, sound: bool)
    requires Work(c, w, g, sound) && u in w.instances && u !in c.li
    requires sound ==> w.instances[u].deleting && u !in w.cloudInstances
    ensures Work(c, w.(instances := w.instances - {u}), g, sound)
  {
    if sound { RemovalKeepsCopies(w, g, c.ls, u); }
  }
}
