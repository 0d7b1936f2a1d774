/**
 * The driver's stateful controller: CSI calls that create ShareInfo objects, mark them for deletion,
 * grow them, and drop the finalizer of a deleted one. To the reconciler these are steps of the
 * environment, and any number of them may land between two of its own.
 */
module StatefulController {
  import opened Wrappers
  import opened Objects
  import opened Capacity
  import opened ApiServer

  /** What a CSI call tells its caller: done, try again, wrong, or failed for the moment. */
  datatype Reply = Done | Aborted | Invalid | Failed

  /** The size a new volume asks for, in whole GiB and within the limits of its StorageClass. */
  function Wanted(g: Pools, name: Name, range: Range): (r: Result<int>)
    ensures r.Ok? ==> 0 <= r.value <= MaxSharePerVolume(g.feature, g.paramsOf(name)) && r.value % GB == 0
  {
    var limits := ParseMaxVolumeSize(g.feature, g.paramsOf(name));
    if limits.Err? then Err
    else
      var capacity := ShareRequestCapacity(range, if g.feature then CONFIGURABLE_MIN_SHARE else MIN_SHARE,
                                           if g.feature then limits.value.1 else MAX_SHARE);
      if capacity.Err? || capacity.value % GB != 0 then Err else capacity
  }

  /** A new volume is granted exactly a size it asks for, in whole GiB, from 10 GiB or 100 GiB up to its class's limit. */
  lemma WantedExact(g: Pools, name: Name, range: Range)
    ensures var p := g.paramsOf(name);
            forall c :: Wanted(g, name, range) == Ok(c) <==>
              && (p == Absent || (g.feature && IsSizeParameter(p))) && c % GB == 0
              && AsksFor(range, if g.feature then 10 * GB else 100 * GB, if p.Size? then p.bytes else TB, c)
  {
    var p := g.paramsOf(name);
    LimitsExact(g.feature, p);
    if p == Absent || (g.feature && IsSizeParameter(p)) {
      RequestExact(range, if g.feature then 10 * GB else 100 * GB, if p.Size? then p.bytes else TB);
    }
  }

  /** A larger volume, exactly a size it asks for, in whole GiB, from 10 GiB up to its class's limit. */
  lemma WantedLargerExact(g: Pools, p: VolumeSize, range: Range)
    ensures forall c :: WantedLarger(g, p, range) == Ok(c) <==>
              c % GB == 0 && AsksFor(range, 10 * GB, if g.feature && IsSizeParameter(p) then p.bytes else TB, c)
  {
    RequestExact(range, 10 * GB, if g.feature && IsSizeParameter(p) then p.bytes else TB);
  }

  /** The size a larger volume asks for. */
  function WantedLarger(g: Pools, p: VolumeSize, range: Range): Result<int> {
    CountTimesSizeIsMax(g.feature, p);
    var capacity := ShareRequestCapacity(range, CONFIGURABLE_MIN_SHARE, if g.feature then MaxSharePerVolume(g.feature, p) else MAX_SHARE);
    if capacity.Err? || capacity.value % GB != 0 then Err else capacity
  }

  /**
   * CreateVolume: asks for a ShareInfo, then waits for its share to be ready. `wellFormed` says that name,
   * capabilities, source and label of the request are in order, `hasRegion` that a region can be picked.
   */
  method CreateVolume(api: Store, name: Name, range: Range, wellFormed: bool, hasRegion: bool) returns (r: Reply)
    modifies api`shares, api`unbroken
    ensures var asked := name !in old(api.shares) && name in api.shares;
            && api.shares == (if asked then old(api.shares)[name := api.shares[name]] else old(api.shares))
            && (asked ==> r == Aborted && Wanted(api.pools, name, range).Ok?)
            && (asked ==> api.shares[name] == ShareInfo(false, api.pools.tagOf(name), api.pools.paramsOf(name), Wanted(api.pools, name, range).value, None))
    ensures r == Invalid <==> !wellFormed || Wanted(api.pools, name, range).Err? || (name !in old(api.shares) && !hasRegion && r != Failed)
    ensures name !in old(api.shares) ==> r == Invalid || r == Failed || name in api.shares
    ensures r == Done ==> name in old(api.shares) && old(api.shares)[name].PhaseNow() == Ready && old(api.shares)[name].Handle() != ""
    ensures api.reliable && r == Failed ==> name in old(api.shares) && old(api.shares)[name].ErrorNow() != ""
    ensures api.reliable && wellFormed && Wanted(api.pools, name, range).Ok? && name in old(api.shares) ==>
              var a := old(api.shares)[name];
              r == if a.Handle() == "" then Aborted else if a.PhaseNow() == Ready then Done else if a.ErrorNow() != "" then Failed else Aborted
    ensures old(api.Clean()) ==> api.Clean()
  {
    var g := api.pools;
    var capacity := Wanted(g, name, range);
    if !wellFormed || capacity.Err? {
      return Invalid;
    }
    var failed := api.Fails();
    if failed {
      return Failed;
    }
    if name !in api.shares {
      if !hasRegion {
        return Invalid;
      }
      failed := api.Fails();
      if failed {
        return Failed;
      }
      ghost var before := api.Now();
      api.shares := api.shares[name := Asked(g, name, range)];
      api.unbroken := api.unbroken && Safe(api.Now(), api.pools);
      if Safe(before, g) {
        CreateShareKeeps(before, g, name, Asked(g, name, range));
      }
      return Aborted;
    }
    var info := api.shares[name];
    if info.Handle() == "" {
      return Aborted;
    }
    if info.PhaseNow() != Ready {
      return if info.ErrorNow() != "" then Failed else Aborted;
    }
    failed := api.Fails();
    return if failed then Failed else Done;
  }

  /** The object asked for: of the size and the pool that the StorageClass of the volume says. */
  function Asked(g: Pools, name: Name, range: Range): (a: ShareInfo)
    requires Wanted(g, name, range).Ok?
    ensures ShareInPool(name, a, g) && a.status.None? && !a.deleting
  {
    ShareInfo(false, g.tagOf(name), g.paramsOf(name), Wanted(g, name, range).value, None)
  }

  /**
   * DeleteVolume: marks the ShareInfo, and once the share is deleted lets the object go. Without an object
   * it is done unless the cloud still holds the share on the instance that the volume id names.
   */
  method DeleteVolume(api: Store, name: Name, host: Uri, wellFormed: bool) returns (r: Reply)
    modifies api`shares, api`unbroken
    ensures r == Invalid <==> !wellFormed
    ensures r == Invalid || r == Failed || name !in old(api.shares) ==> api.shares == old(api.shares)
    ensures r == Done ==> name !in api.shares
    ensures wellFormed && name !in old(api.shares) && r != Failed ==> (r == Done <==> (name, host) !in api.cloudShares)
    ensures name in old(api.shares) ==>
              var a := old(api.shares)[name];
              && (r == Done <==> name !in api.shares)
              && (r == Done ==> a.deleting && a.PhaseNow() == Deleted && api.shares == old(api.shares) - {name})
              && (r == Aborted ==> api.shares == old(api.shares) || (!a.deleting && api.shares == old(api.shares)[name := a.(deleting := true)]))
    ensures api.reliable && wellFormed && name in old(api.shares) ==>
              var a := old(api.shares)[name];
              if !a.deleting then r == Aborted && api.shares == old(api.shares)[name := a.(deleting := true)]
              else if a.PhaseNow() == Deleted then r == Done
              else r == if a.ErrorNow() != "" then Failed else Aborted
    ensures old(api.Clean()) ==> api.Clean()
  {
    if !wellFormed {
      return Invalid;
    }
    var failed := api.Fails();
    if failed {
      return Failed;
    }
    if name !in api.shares {
      return if (name, host) in api.cloudShares then Aborted else Done;
    }
    ghost var before := api.Now();
    var info := api.shares[name];
    failed := api.Fails();
    if !info.deleting {
      if !failed {
        api.shares := api.shares[name := info.(deleting := true)];
        api.unbroken := api.unbroken && Safe(api.Now(), api.pools);
        if Safe(before, api.pools) {
          GrowShareKeeps(before, api.pools, name, info.(deleting := true));
        }
      }
      return Aborted;
    }
    if info.PhaseNow() == Deleted {
      if failed {
        return Failed;
      }
      api.shares := api.shares - {name};
      api.unbroken := api.unbroken && Safe(api.Now(), api.pools);
      if Safe(before, api.pools) {
        DropShareKeeps(before, api.pools, name);
      }
      return Done;
    }
    return if info.ErrorNow() != "" then Failed else Aborted;
  }

  /** ControllerExpandVolume: raises the wanted size, then waits for the share to reach it. */
  method ExpandVolume(api: Store, name: Name, range: Range, wellFormed: bool) returns (r: Reply)
    modifies api`shares, api`unbroken
    ensures r == Invalid || r == Failed || r == Done || name !in old(api.shares) ==> api.shares == old(api.shares)
    ensures !wellFormed ==> r == Invalid
    ensures wellFormed && name in old(api.shares) ==>
              var a, wanted := old(api.shares)[name], WantedLarger(api.pools, old(api.shares)[name].params, range);
              && (r == Invalid <==> wanted.Err? && r != Failed)
              && (r == Done ==> a.PhaseNow() == Ready && a.status.value.capacity >= wanted.value && a.capacity >= wanted.value)
              && (r == Aborted ==> api.shares == old(api.shares)[name := a.(capacity := Max(a.capacity, wanted.value))])
    ensures api.reliable && r == Failed ==> name in old(api.shares) && (old(api.shares)[name].ErrorNow() != "" || old(api.shares)[name].status.None?)
    ensures wellFormed && name !in old(api.shares) ==> r == Aborted || r == Failed
    ensures api.reliable && wellFormed && name in old(api.shares) && WantedLarger(api.pools, old(api.shares)[name].params, range).Ok? ==>
              var a, wanted := old(api.shares)[name], WantedLarger(api.pools, old(api.shares)[name].params, range).value;
              r == if a.capacity < wanted then Aborted else if a.status.None? then Failed
                   else if a.PhaseNow() == Ready && a.status.value.capacity >= wanted then Done
                   else if a.ErrorNow() != "" then Failed else Aborted
    ensures old(api.Clean()) ==> api.Clean()
  {
    if !wellFormed {
      return Invalid;
    }
    var g := api.pools;
    var failed := api.Fails();
    if failed {
      return Failed;
    }
    if name !in api.shares {
      return Aborted;
    }
    var info := api.shares[name];
    var capacity := WantedLarger(g, info.params, range);
    if capacity.Err? {
      return Invalid;
    }
    failed := api.Fails();
    if info.capacity < capacity.value {
      if failed {
        return Failed;
      }
      Grow(api, name, capacity.value);
      return Aborted;
    }
    if info.status.None? {
      return Failed;
    }
    if info.status.value.capacity >= capacity.value && info.PhaseNow() == Ready {
      return if failed then Failed else Done;
    }
    return if info.ErrorNow() != "" then Failed else Aborted;
  }

  /** Raises the wanted size to one within the limits. */
  method Grow(api: Store, name: Name, capacity: int)
    requires name in api.shares && api.shares[name].capacity < capacity <= MaxSharePerVolume(api.pools.feature, api.shares[name].params)
    modifies api`shares, api`unbroken
    ensures api.shares == old(api.shares)[name := old(api.shares)[name].(capacity := capacity)]
    ensures old(api.Clean()) ==> api.Clean()
  {
    ghost var before := api.Now();
    var grown := api.shares[name].(capacity := capacity);
    api.shares := api.shares[name := grown];
    api.unbroken := api.unbroken && Safe(api.Now(), api.pools);
    if Safe(before, api.pools) {
      assert before.shares[name].capacity >= 0;
      GrowShareKeeps(before, api.pools, name, grown);
    }
  }

  /** Any number of CSI calls, in any order, for any volumes. None at all when the store is reliable. */
  method Interleave(api: Store)
    modifies api`shares, api`unbroken
    ensures api.reliable ==> api.shares == old(api.shares)
    ensures Later(old(api.shares), api.shares)
    ensures old(api.Clean()) ==> api.Clean()
  {
    if api.reliable {
      return;
    }
    var calls: nat := *;
    while calls > 0
      invariant Later(old(api.shares), api.shares)
      invariant old(api.Clean()) ==> api.Clean()
    {
      var kind: nat, name: Name, range: Range, host: Uri, wellFormed: bool, hasRegion: bool := *, *, *, *, *, *;
      ghost var before := api.shares;
      var reply;
      if kind == 0 {
        reply := CreateVolume(api, name, range, wellFormed, hasRegion);
      } else if kind == 1 {
        reply := DeleteVolume(api, name, host, wellFormed);
      } else {
        reply := ExpandVolume(api, name, range, wellFormed);
      }
      forall s, a | Tracks(a, s, before) ensures Tracks(a, s, api.shares) {
      }
      calls := calls - 1;
    }
  }
}
