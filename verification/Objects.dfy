/**
 * The ShareInfo and InstanceInfo objects of the multishare reconciler, the state of the world they
 * live in, and the invariant every reachable state satisfies.
 */
module Objects {
  import opened Wrappers
  import opened Capacity

  type Name = string
  type Uri = string
  type Tag = string

  datatype Phase = Unset | Creating | Ready | Updating | Deleted

  datatype ShareStatus = ShareStatus(handle: Uri, capacity: int, phase: Phase, error: string)

  /** A ShareInfo object; its name is the key it is stored under. */
  datatype ShareInfo = ShareInfo(
    deleting: bool, tag: Tag, params: VolumeSize, capacity: int, status: Option<ShareStatus>)
  {
    function Handle(): Uri {
      if status.Some? then status.value.handle else ""
    }

    function PhaseNow(): Phase {
      if status.Some? then status.value.phase else Unset
    }

    function ErrorNow(): string {
      if status.Some? then status.value.error else ""
    }

    function WithHandle(u: Uri): ShareInfo {
      this.(status := Some(if status.Some? then status.value.(handle := u) else ShareStatus(u, 0, Unset, "")))
    }

    function WithPhase(p: Phase): ShareInfo {
      this.(status := Some(if status.Some? then status.value.(phase := p) else ShareStatus("", 0, p, "")))
    }
  }

  datatype InstanceStatus = InstanceStatus(
    shareNames: seq<Name>, capacity: int, phase: Phase, stepGb: nat, cidr: string, error: string)

  /** An InstanceInfo object, stored under the URI its name stands for. */
  datatype InstanceInfo = InstanceInfo(
    deleting: bool, finalizers: nat, poolTag: Tag, params: VolumeSize, capacity: int, status: Option<InstanceStatus>)
  {
    function Names(): seq<Name> {
      if status.Some? then status.value.shareNames else []
    }

    function StatusOrNew(): InstanceStatus {
      if status.Some? then status.value else InstanceStatus([], 0, Unset, 0, "", "")
    }

    function WithNames(names: seq<Name>): InstanceInfo {
      this.(status := Some(StatusOrNew().(shareNames := names)))
    }
  }

  /**
   * Everything outside the reconciler's memory: the two kinds of objects, and the shares and instances
   * the cloud holds. A share or instance counts as held from the moment its creation is accepted until
   * a listing no longer shows it.
   */
  datatype World = World(
    shares: map<Name, ShareInfo>,
    instances: map<Uri, InstanceInfo>,
    cloudShares: set<(Name, Uri)>,
    cloudInstances: set<Uri>)

  /**
   * The StorageClasses in use: the pool tag and the volume-size parameter that each volume name has from
   * its StorageClass, the tags that have a StorageClass, and the feature flag for configurable share
   * counts. Nothing says that two StorageClasses with the same tag have the same volume size.
   */
  datatype Pools = Pools(tagOf: Name -> Tag, paramsOf: Name -> VolumeSize, classes: set<Tag>, feature: bool)
  {
    predicate HasClass(tag: Tag) {
      tag != "" && tag in classes
    }

    function MaxCount(i: InstanceInfo): int {
      MaxSharePerInstance(feature, i.params)
    }
  }

  ghost predicate Distinct<T>(s: seq<T>) {
    forall i, j | 0 <= i < j < |s| :: s[i] != s[j]
  }

  lemma TakeNext<T>(s: seq<T>, k: nat)
    requires k < |s|
    ensures s[..k + 1] == s[..k] + [s[k]]
    ensures Distinct(s) ==> s[k] !in s[..k]
  {
  }

  lemma TakeAll<T>(s: seq<T>)
    ensures s[..|s|] == s
  {
  }

  predicate Lists(instances: map<Uri, InstanceInfo>, u: Uri, s: Name) {
    u in instances && s in instances[u].Names()
  }

  // The invariant, clause by clause.

  /** A live share's handle names an existing instance that lists the share. */
  ghost predicate Hosted(w: World) {
    forall s | s in w.shares && !w.shares[s].deleting && w.shares[s].Handle() != "" ::
      Lists(w.instances, w.shares[s].Handle(), s)
  }

  /** A share the cloud holds has its object, assigned to and listed by the instance it lives on. */
  ghost predicate Observed(w: World) {
    forall s, u | (s, u) in w.cloudShares :: ObservedShare(w, s, u)
  }

  ghost predicate ObservedShare(w: World, s: Name, u: Uri) {
    s in w.shares && w.shares[s].Handle() == u && w.shares[s].PhaseNow() != Deleted && Lists(w.instances, u, s)
  }

  ghost predicate DeletedOnlyIfDeleting(w: World) {
    forall s | s in w.shares && w.shares[s].PhaseNow() == Deleted :: w.shares[s].deleting
  }

  /** An instance marked for deletion lists no share. */
  ghost predicate CondemnedEmpty(w: World) {
    forall u | u in w.instances && w.instances[u].deleting :: w.instances[u].Names() == []
  }

  ghost predicate WellFormed(w: World) {
    && "" !in w.instances
    && w.cloudInstances <= w.instances.Keys
    && forall u | u in w.instances :: Distinct(w.instances[u].Names())
  }

  /** Each share respects the size limit of its own StorageClass. */
  ghost predicate ShareInPool(s: Name, i: ShareInfo, g: Pools) {
    i.tag == g.tagOf(s) && i.params == g.paramsOf(s) && 0 <= i.capacity <= MaxSharePerVolume(g.feature, i.params)
  }

  /** Each instance lists shares of its own pool only, and no more than its own parameters allow. */
  ghost predicate InstanceInPool(i: InstanceInfo, g: Pools) {
    && |i.Names()| <= g.MaxCount(i)
    && forall n | n in i.Names() :: g.tagOf(n) == i.poolTag
  }

  ghost predicate Packed(w: World, g: Pools) {
    && (forall s | s in w.shares :: ShareInPool(s, w.shares[s], g))
    && (forall u | u in w.instances :: InstanceInPool(w.instances[u], g))
  }

  ghost predicate Safe(w: World, g: Pools) {
    Hosted(w) && Observed(w) && DeletedOnlyIfDeleting(w) && CondemnedEmpty(w) && WellFormed(w) && Packed(w, g)
  }

  /** No hosting instance is condemned: nothing live is assigned to it and the cloud holds nothing on it. */
  lemma CondemnedHostsNothing(w: World, g: Pools, u: Uri)
    requires Safe(w, g) && u in w.instances && w.instances[u].deleting
    ensures forall s | s in w.shares && !w.shares[s].deleting :: w.shares[s].Handle() != u
    ensures forall s :: (s, u) !in w.cloudShares
  {
    forall s | s in w.shares && !w.shares[s].deleting ensures w.shares[s].Handle() != u {
      assert !Lists(w.instances, u, s);
    }
    forall s ensures (s, u) !in w.cloudShares {
      assert !ObservedShare(w, s, u);
    }
  }

  // What each kind of write keeps.

  lemma AssignHandleKeeps(w: World, g: Pools, s: Name, u: Uri)
    requires Safe(w, g) && s in w.shares && w.shares[s].Handle() == "" && Lists(w.instances, u, s)
    ensures Safe(w.(shares := w.shares[s := w.shares[s].WithHandle(u)]), g)
  {
    var t := w.(shares := w.shares[s := w.shares[s].WithHandle(u)]);
    forall n, v | (n, v) in t.cloudShares ensures ObservedShare(t, n, v) {
      assert ObservedShare(w, n, v);
    }
  }

  /** A status that keeps handle and deletion state. */
  lemma ShareStatusKeeps(w: World, g: Pools, s: Name, st: ShareStatus)
    requires Safe(w, g) && s in w.shares && st.handle == w.shares[s].Handle()
    requires st.phase == Deleted <==> w.shares[s].PhaseNow() == Deleted
    ensures Safe(w.(shares := w.shares[s := w.shares[s].(status := Some(st))]), g)
  {
    var t := w.(shares := w.shares[s := w.shares[s].(status := Some(st))]);
    forall n, v | (n, v) in t.cloudShares ensures ObservedShare(t, n, v) {
      assert ObservedShare(w, n, v);
    }
  }

  lemma MarkDeletedKeeps(w: World, g: Pools, s: Name)
    requires Safe(w, g) && s in w.shares && w.shares[s].deleting
    requires forall u :: (s, u) !in w.cloudShares
    ensures Safe(w.(shares := w.shares[s := w.shares[s].WithPhase(Deleted)]), g)
  {
    var t := w.(shares := w.shares[s := w.shares[s].WithPhase(Deleted)]);
    forall n, v | (n, v) in t.cloudShares ensures ObservedShare(t, n, v) {
      assert ObservedShare(w, n, v);
    }
  }

  /** Any change of an instance that adds no foreign name and drops only names nothing depends on. */
  lemma InstanceChangeKeeps(w: World, g: Pools, u: Uri, i: InstanceInfo)
    requires Safe(w, g) && u in w.instances
    requires Distinct(i.Names()) && InstanceInPool(i, g)
    requires i.deleting ==> i.Names() == []
    requires forall n | n in w.instances[u].Names() && n !in i.Names() :: Droppable(w, u, n)
    ensures Safe(w.(instances := w.instances[u := i]), g)
  {
    var t := w.(instances := w.instances[u := i]);
    forall s | s in t.shares && !t.shares[s].deleting && t.shares[s].Handle() != ""
      ensures Lists(t.instances, t.shares[s].Handle(), s)
    {
      assert Lists(w.instances, w.shares[s].Handle(), s);
    }
    forall n, v | (n, v) in t.cloudShares ensures ObservedShare(t, n, v) {
      assert ObservedShare(w, n, v);
    }
  }

  /** No live share assigned here goes by this name, and the cloud holds none here. */
  ghost predicate Droppable(w: World, u: Uri, n: Name) {
    && (n in w.shares ==> w.shares[n].deleting || w.shares[n].Handle() != u)
    && (n, u) !in w.cloudShares
  }

  lemma CreateInstanceKeeps(w: World, g: Pools, u: Uri, i: InstanceInfo)
    requires Safe(w, g) && u !in w.instances && u != ""
    requires !i.deleting && i.status.None?
    ensures Safe(w.(instances := w.instances[u := i]), g)
  {
    var t := w.(instances := w.instances[u := i]);
    CountTimesSizeIsMax(g.feature, i.params);
    forall s | s in t.shares && !t.shares[s].deleting && t.shares[s].Handle() != ""
      ensures Lists(t.instances, t.shares[s].Handle(), s)
    {
      assert Lists(w.instances, w.shares[s].Handle(), s);
    }
    forall n, v | (n, v) in t.cloudShares ensures ObservedShare(t, n, v) {
      assert ObservedShare(w, n, v);
    }
  }

  lemma RemoveInstanceKeeps(w: World, g: Pools, u: Uri)
    requires Safe(w, g) && u in w.instances && w.instances[u].deleting && u !in w.cloudInstances
    ensures Safe(w.(instances := w.instances - {u}), g)
  {
    var t := w.(instances := w.instances - {u});
    CondemnedHostsNothing(w, g, u);
    forall s | s in t.shares && !t.shares[s].deleting && t.shares[s].Handle() != ""
      ensures Lists(t.instances, t.shares[s].Handle(), s)
    {
      assert Lists(w.instances, w.shares[s].Handle(), s);
    }
    forall n, v | (n, v) in t.cloudShares ensures ObservedShare(t, n, v) {
      assert ObservedShare(w, n, v);
    }
  }

  lemma StartShareKeeps(w: World, g: Pools, s: Name, u: Uri)
    requires Safe(w, g) && ObservedShare(w, s, u)
    ensures Safe(w.(cloudShares := w.cloudShares + {(s, u)}), g)
  {
    var t := w.(cloudShares := w.cloudShares + {(s, u)});
    forall n, v | (n, v) in t.cloudShares ensures ObservedShare(t, n, v) {
      assert (n, v) in w.cloudShares || (n == s && v == u);
      assert ObservedShare(w, n, v);
    }
  }

  lemma CloudShrinksKeeps(w: World, g: Pools, shares: set<(Name, Uri)>, hosts: set<Uri>)
    requires Safe(w, g) && shares <= w.cloudShares && hosts <= w.cloudInstances
    ensures Safe(w.(cloudShares := shares, cloudInstances := hosts), g)
  {
    var t := w.(cloudShares := shares, cloudInstances := hosts);
    forall n, v | (n, v) in t.cloudShares ensures ObservedShare(t, n, v) {
      assert ObservedShare(w, n, v);
    }
  }

  // What the driver's own calls on ShareInfo objects keep.

  /** `b` is `a` after any number of driver calls: marked for deletion or grown, status untouched. */
  ghost predicate Grew(a: ShareInfo, b: ShareInfo) {
    && b.status == a.status && b.tag == a.tag && b.params == a.params
    && b.capacity >= a.capacity && (a.deleting ==> b.deleting)
  }

  ghost predicate Blank(a: ShareInfo) {
    a.Handle() == "" && a.PhaseNow() != Deleted
  }

  /** A copy read earlier against the object now: the same object grown, or, when the copy was already
      in phase Deleted, possibly gone or created anew. */
  ghost predicate Tracks(a: ShareInfo, s: Name, shares: map<Name, ShareInfo>) {
    if s in shares then Grew(a, shares[s]) || (a.PhaseNow() == Deleted && Blank(shares[s]))
    else a.PhaseNow() == Deleted
  }

  /** The ShareInfo objects after any number of driver calls: whatever a copy was to them, it is still. */
  ghost predicate Later(before: map<Name, ShareInfo>, after: map<Name, ShareInfo>) {
    forall s, a :: Tracks(a, s, before) ==> Tracks(a, s, after)
  }

  /** The world after driver calls only. */
  ghost predicate Between(before: World, mid: World) {
    mid == before.(shares := mid.shares) && Later(before.shares, mid.shares)
  }

  lemma CreateShareKeeps(w: World, g: Pools, s: Name, i: ShareInfo)
    requires Safe(w, g) && s !in w.shares && i.status.None? && ShareInPool(s, i, g)
    ensures Safe(w.(shares := w.shares[s := i]), g)
  {
    var t := w.(shares := w.shares[s := i]);
    forall n, v | (n, v) in t.cloudShares ensures ObservedShare(t, n, v) {
      assert ObservedShare(w, n, v);
    }
  }

  lemma GrowShareKeeps(w: World, g: Pools, s: Name, i: ShareInfo)
    requires Safe(w, g) && s in w.shares && Grew(w.shares[s], i) && ShareInPool(s, i, g)
    ensures Safe(w.(shares := w.shares[s := i]), g)
  {
    var t := w.(shares := w.shares[s := i]);
    forall n, v | (n, v) in t.cloudShares ensures ObservedShare(t, n, v) {
      assert ObservedShare(w, n, v);
    }
  }

  lemma DropShareKeeps(w: World, g: Pools, s: Name)
    requires Safe(w, g) && s in w.shares && w.shares[s].PhaseNow() == Deleted
    ensures Safe(w.(shares := w.shares - {s}), g)
  {
    var t := w.(shares := w.shares - {s});
    forall n, v | (n, v) in t.cloudShares ensures ObservedShare(t, n, v) {
      assert ObservedShare(w, n, v);
    }
  }
}
