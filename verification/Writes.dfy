/**
 * The reconciler's writes. Before each one the driver's own calls may land, which leaves the world at
 * `mid`; the write then takes effect in one step or fails. Nothing is said here of the invariant but
 * that it has held all along if it held at first and holds after the write.
 */
module Writes {
  import opened Wrappers
  import opened Objects
  import opened ApiServer
  import opened StatefulController

  method Pause(api: Store) returns (ghost mid: World)
    modifies api`shares, api`unbroken
    ensures mid == api.Now() && Between(old(api.Now()), mid) && (api.reliable ==> mid == old(api.Now()))
    ensures old(api.Clean()) ==> api.Clean()
  {
    Interleave(api);
    mid := api.Now();
  }

  method WriteShare(api: Store, s: Name, base: ShareInfo, status: ShareStatus) returns (ok: bool, ghost mid: World)
    modifies api`shares, api`unbroken, api`writes
    ensures Between(old(api.Now()), mid) && (api.reliable ==> mid == old(api.Now()))
    ensures ok ==> s in mid.shares && mid.shares[s] == base
    ensures api.reliable && s in mid.shares && mid.shares[s] == base ==> ok
    ensures api.Now() == if ok then mid.(shares := mid.shares[s := base.(status := Some(status))]) else mid
    ensures api.writes == old(api.writes) + 1
    ensures old(api.Clean()) ==> Safe(mid, api.pools) && (Safe(api.Now(), api.pools) ==> api.Clean())
  {
    mid := Pause(api);
    ok := api.UpdateShareStatus(s, base, status);
  }

  method AddShare(api: Store, s: Name, created: ShareInfo) returns (ok: bool, ghost mid: World)
    modifies api`shares, api`unbroken, api`writes
    ensures Between(old(api.Now()), mid) && (api.reliable ==> mid == old(api.Now()))
    ensures ok ==> s !in mid.shares
    ensures api.reliable && s !in mid.shares ==> ok
    ensures api.Now() == if ok then mid.(shares := mid.shares[s := created]) else mid
    ensures api.writes == old(api.writes) + 1
    ensures old(api.Clean()) ==> Safe(mid, api.pools) && (Safe(api.Now(), api.pools) ==> api.Clean())
  {
    mid := Pause(api);
    ok := api.CreateShareInfo(s, created);
  }

  method WriteInstance(api: Store, u: Uri, base: InstanceInfo, replacement: InstanceInfo) returns (ok: bool, ghost mid: World)
    modifies api`shares, api`instances, api`unbroken, api`writes
    ensures Between(old(api.Now()), mid) && (api.reliable ==> mid == old(api.Now()))
    ensures ok ==> u in mid.instances && mid.instances[u] == base
    ensures api.reliable && u in mid.instances && mid.instances[u] == base ==> ok
    ensures api.Now() == if ok then mid.(instances := mid.instances[u := replacement]) else mid
    ensures api.writes == old(api.writes) + 1
    ensures old(api.Clean()) ==> Safe(mid, api.pools) && (Safe(api.Now(), api.pools) ==> api.Clean())
  {
    mid := Pause(api);
    ok := api.UpdateInstance(u, base, replacement);
  }

  method AddInstance(api: Store, u: Uri, created: InstanceInfo) returns (ok: bool, ghost mid: World)
    modifies api`shares, api`instances, api`unbroken, api`writes
    ensures Between(old(api.Now()), mid) && (api.reliable ==> mid == old(api.Now()))
    ensures ok ==> u !in mid.instances
    ensures api.reliable && u !in mid.instances ==> ok
    ensures api.Now() == if ok then mid.(instances := mid.instances[u := created]) else mid
    ensures api.writes == old(api.writes) + 1
    ensures old(api.Clean()) ==> Safe(mid, api.pools) && (Safe(api.Now(), api.pools) ==> api.Clean())
  {
    mid := Pause(api);
    ok := api.CreateInstanceInfo(u, created);
  }

  /** Deletes an InstanceInfo that has a finalizer: it is only marked, whatever version it is at. */
  method MarkInstance(api: Store, u: Uri) returns (ok: bool, ghost mid: World)
    modifies api`shares, api`instances, api`unbroken, api`writes
    ensures Between(old(api.Now()), mid) && (api.reliable ==> mid == old(api.Now()))
    ensures ok ==> u in mid.instances
    ensures api.reliable && u in mid.instances ==> ok
    ensures api.Now() == if ok then mid.(instances := mid.instances[u := mid.instances[u].(deleting := true)]) else mid
    ensures api.writes == old(api.writes) + 1
    ensures old(api.Clean()) ==> Safe(mid, api.pools) && (Safe(api.Now(), api.pools) ==> api.Clean())
  {
    mid := Pause(api);
    ok := api.DeleteInstanceInfo(u);
  }

  /** Removes the last finalizer of a marked InstanceInfo, and the object with it. */
  method ReleaseInstance(api: Store, u: Uri, base: InstanceInfo) returns (ok: bool, ghost mid: World)
    modifies api`shares, api`instances, api`unbroken, api`writes
    ensures Between(old(api.Now()), mid) && (api.reliable ==> mid == old(api.Now()))
    ensures ok ==> u in mid.instances && mid.instances[u] == base
    ensures api.reliable && u in mid.instances && mid.instances[u] == base ==> ok
    ensures api.Now() == if ok then mid.(instances := mid.instances - {u}) else mid
    ensures api.writes == old(api.writes) + 1
    ensures old(api.Clean()) ==> Safe(mid, api.pools) && (Safe(api.Now(), api.pools) ==> api.Clean())
  {
    mid := Pause(api);
    ok := api.RemoveInstanceFinalizer(u, base);
  }

  /** Asks the cloud to start an operation. */
  method Request(api: Store, op: StartedOp) returns (ok: bool, ghost mid: World)
    modifies api`shares, api`cloudShares, api`cloudInstances, api`started, api`unbroken
    ensures Between(old(api.Now()), mid) && (api.reliable ==> mid == old(api.Now()))
    ensures api.reliable ==> ok
    ensures api.Now() == if ok then Requested(mid, op) else mid
    ensures api.started == if ok then old(api.started) + [op] else old(api.started)
    ensures old(api.Clean()) ==> Safe(mid, api.pools) && (Safe(api.Now(), api.pools) ==> api.Clean())
  {
    mid := Pause(api);
    ok := api.Start(op);
  }
}
