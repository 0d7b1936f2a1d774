/**
 * The object store and the cloud as the reconciler's calls see them. Every call takes effect in one
 * step or, unless the store is `reliable`, may fail without effect; an update carries the copy it was
 * made from and is refused when the stored object has changed. The ghost field `unbroken` is set at
 * every step: it says that the invariant has held in each state so far, so that a process which stops
 * at any point leaves such a state behind.
 */
module ApiServer {
  import opened Wrappers
  import opened Objects

  /** A cloud operation that was started. */
  datatype StartedOp =
    | CreateShare(share: Name, uri: Uri, capacity: int)
    | ResizeShare(share: Name, uri: Uri, capacity: int)
    | DeleteShare(share: Name, uri: Uri)
    | CreateInstance(uri: Uri, capacity: int)
    | ResizeInstance(uri: Uri, capacity: int)
    | DeleteInstance(uri: Uri)

  /** A created share or instance is held from then on. */
  ghost function Requested(w: World, op: StartedOp): World {
    match op
    case CreateShare(s, u, _) => w.(cloudShares := w.cloudShares + {(s, u)})
    case CreateInstance(u, _) => w.(cloudInstances := w.cloudInstances + {u})
    case _ => w
  }

  /** What a listing says of a share and of an instance. */
  datatype CloudShare = CloudShare(name: Name, parent: Uri, capacity: int, state: string)
  datatype CloudInstance = CloudInstance(uri: Uri, capacity: int, state: string, stepGb: nat, cidr: string, tag: Tag)

  predicate ListsShare(listing: seq<CloudShare>, s: Name, u: Uri) {
    exists c :: c in listing && c.name == s && c.parent == u
  }

  predicate ListsInstance(listing: seq<CloudInstance>, u: Uri) {
    exists c :: c in listing && c.uri == u
  }

  class Store {
    var shares: map<Name, ShareInfo>
    var instances: map<Uri, InstanceInfo>
    var cloudShares: set<(Name, Uri)>
    var cloudInstances: set<Uri>
    var started: seq<StartedOp>
    ghost var unbroken: bool
    var writes: nat
    const pools: Pools
    const reliable: bool

    constructor (pools: Pools, reliable: bool)
      ensures this.pools == pools && this.reliable == reliable
      ensures shares == map[] && instances == map[] && cloudShares == {} && cloudInstances == {}
      ensures started == [] && Clean()
    {
      this.pools := pools;
      this.reliable := reliable;
      shares, instances, cloudShares, cloudInstances := map[], map[], {}, {};
      started := [];
      unbroken := true;
      writes := 0;
    }

    ghost function Now(): World
      reads this
    {
      World(shares, instances, cloudShares, cloudInstances)
    }

    /** The invariant has held in every state so far, the present one included. */
    ghost predicate Clean()
      reads this
    {
      unbroken && Safe(Now(), pools)
    }

    /** Does this call fail? */
    method Fails() returns (fails: bool)
      ensures reliable ==> !fails
    {
      var coin: bool := *;
      fails := coin && !reliable;
    }

    /** UpdateStatus on a ShareInfo. */
    method UpdateShareStatus(s: Name, base: ShareInfo, status: ShareStatus) returns (ok: bool)
      modifies this`shares, this`unbroken, this`writes
      ensures writes == old(writes) + 1
      ensures reliable && s in old(shares) && old(shares)[s] == base ==> ok
      ensures ok ==> s in old(shares) && old(shares)[s] == base
      ensures shares == if ok then old(shares)[s := base.(status := Some(status))] else old(shares)
      ensures unbroken <==> old(unbroken) && (ok ==> Safe(Now(), pools))
    {
      writes := writes + 1;
      var fails := Fails();
      ok := !fails && s in shares && shares[s] == base;
      if ok {
        shares := shares[s := base.(status := Some(status))];
        unbroken := unbroken && Safe(Now(), pools);
      }
    }

    /** Create on a ShareInfo. */
    method CreateShareInfo(s: Name, created: ShareInfo) returns (ok: bool)
      modifies this`shares, this`unbroken, this`writes
      ensures writes == old(writes) + 1
      ensures reliable && s !in old(shares) ==> ok
      ensures ok ==> s !in old(shares)
      ensures shares == if ok then old(shares)[s := created] else old(shares)
      ensures unbroken <==> old(unbroken) && (ok ==> Safe(Now(), pools))
    {
      writes := writes + 1;
      var fails := Fails();
      ok := !fails && s !in shares;
      if ok {
        shares := shares[s := created];
        unbroken := unbroken && Safe(Now(), pools);
      }
    }

    /** UpdateStatus or Update on an InstanceInfo: `replacement` replaces the copy it was made from. */
    method UpdateInstance(u: Uri, base: InstanceInfo, replacement: InstanceInfo) returns (ok: bool)
      modifies this`instances, this`unbroken, this`writes
      ensures writes == old(writes) + 1
      ensures reliable && u in old(instances) && old(instances)[u] == base ==> ok
      ensures ok ==> u in old(instances) && old(instances)[u] == base
      ensures instances == if ok then old(instances)[u := replacement] else old(instances)
      ensures unbroken <==> old(unbroken) && (ok ==> Safe(Now(), pools))
    {
      writes := writes + 1;
      var fails := Fails();
      ok := !fails && u in instances && instances[u] == base;
      if ok {
        instances := instances[u := replacement];
        unbroken := unbroken && Safe(Now(), pools);
      }
    }

    /** Create on an InstanceInfo. */
    method CreateInstanceInfo(u: Uri, created: InstanceInfo) returns (ok: bool)
      modifies this`instances, this`unbroken, this`writes
      ensures writes == old(writes) + 1
      ensures reliable && u !in old(instances) ==> ok
      ensures ok ==> u !in old(instances)
      ensures instances == if ok then old(instances)[u := created] else old(instances)
      ensures unbroken <==> old(unbroken) && (ok ==> Safe(Now(), pools))
    {
      writes := writes + 1;
      var fails := Fails();
      ok := !fails && u !in instances;
      if ok {
        instances := instances[u := created];
        unbroken := unbroken && Safe(Now(), pools);
      }
    }

    /** Delete on an InstanceInfo that has a finalizer: it is only marked. Carries no version. */
    method DeleteInstanceInfo(u: Uri) returns (ok: bool)
      modifies this`instances, this`unbroken, this`writes
      ensures writes == old(writes) + 1
      ensures reliable && u in old(instances) ==> ok
      ensures ok ==> u in old(instances)
      ensures instances == if ok then old(instances)[u := old(instances)[u].(deleting := true)] else old(instances)
      ensures unbroken <==> old(unbroken) && (ok ==> Safe(Now(), pools))
    {
      writes := writes + 1;
      var fails := Fails();
      ok := !fails && u in instances;
      if ok {
        instances := instances[u := instances[u].(deleting := true)];
        unbroken := unbroken && Safe(Now(), pools);
      }
    }

    /** Removing the last finalizer of a marked InstanceInfo removes the object. */
    method RemoveInstanceFinalizer(u: Uri, base: InstanceInfo) returns (ok: bool)
      modifies this`instances, this`unbroken, this`writes
      ensures writes == old(writes) + 1
      ensures reliable && u in old(instances) && old(instances)[u] == base ==> ok
      ensures ok ==> u in old(instances) && old(instances)[u] == base
      ensures instances == if ok then old(instances) - {u} else old(instances)
      ensures unbroken <==> old(unbroken) && (ok ==> Safe(Now(), pools))
    {
      writes := writes + 1;
      var fails := Fails();
      ok := !fails && u in instances && instances[u] == base;
      if ok {
        instances := instances - {u};
        unbroken := unbroken && Safe(Now(), pools);
      }
    }

    /** Asks the cloud to start an operation; a created share or instance is listed from then on. */
    method Start(op: StartedOp) returns (ok: bool)
      modifies this`cloudShares, this`cloudInstances, this`started, this`unbroken
      ensures reliable ==> ok
      ensures started == if ok then old(started) + [op] else old(started)
      ensures cloudShares == if ok && op.CreateShare? then old(cloudShares) + {(op.share, op.uri)} else old(cloudShares)
      ensures cloudInstances == if ok && op.CreateInstance? then old(cloudInstances) + {op.uri} else old(cloudInstances)
      ensures unbroken <==> old(unbroken) && (ok ==> Safe(Now(), pools))
    {
      var fails := Fails();
      ok := !fails;
      if ok {
        started := started + [op];
        if op.CreateShare? { cloudShares := cloudShares + {(op.share, op.uri)}; }
        if op.CreateInstance? { cloudInstances := cloudInstances + {op.uri}; }
        unbroken := unbroken && Safe(Now(), pools);
      }
    }

    /**
     * Lists the cloud: whatever finished deleting since the last listing is no longer there. Shares are
     * listed first, instances second, and a share whose instance is not listed is left out.
     */
    method ListCloud() returns (listing: seq<CloudShare>, hosts: seq<CloudInstance>)
      modifies this`cloudShares, this`cloudInstances, this`unbroken
      ensures cloudShares <= old(cloudShares) && cloudInstances <= old(cloudInstances)
      ensures forall s, u :: (s, u) in cloudShares <==> ListsShare(listing, s, u)
      ensures forall u :: u in cloudInstances <==> ListsInstance(hosts, u)
      ensures forall c | c in listing :: ListsInstance(hosts, c.parent)
      ensures unbroken <==> old(unbroken) && Safe(Now(), pools)
    {
      var there: set<(Name, Uri)>, left: set<Uri> := *, *;
      cloudInstances := cloudInstances * left;
      cloudShares := set p | p in cloudShares && p in there && p.1 in cloudInstances;
      hosts := ReportInstances(cloudInstances);
      listing := ReportShares(cloudShares);
      forall c | c in listing ensures ListsInstance(hosts, c.parent) {
        assert ListsShare(listing, c.name, c.parent);
      }
      unbroken := unbroken && Safe(Now(), pools);
    }
  }

  /** Sizes and states are whatever the cloud reports. */
  method ReportShares(held: set<(Name, Uri)>) returns (listing: seq<CloudShare>)
    ensures forall s, u :: (s, u) in held <==> ListsShare(listing, s, u)
  {
    listing := [];
    var rest := held;
    while rest != {}
      invariant rest <= held
      invariant forall s, u :: (s, u) in held - rest <==> ListsShare(listing, s, u)
    {
      var p :| p in rest;
      var capacity: int, state: string := *, *;
      ghost var before := listing;
      listing := listing + [CloudShare(p.0, p.1, capacity, state)];
      rest := rest - {p};
      forall s, u ensures ListsShare(listing, s, u) <==> ListsShare(before, s, u) || (s, u) == p {
        assert (s, u) == p ==> listing[|before|] in listing;
      }
    }
  }

  method ReportInstances(held: set<Uri>) returns (listing: seq<CloudInstance>)
    ensures forall u :: u in held <==> ListsInstance(listing, u)
  {
    listing := [];
    var rest := held;
    while rest != {}
      invariant rest <= held
      invariant forall u :: u in held - rest <==> ListsInstance(listing, u)
    {
      var u :| u in rest;
      var capacity: int, state: string, stepGb: nat, cidr: string, tag: Tag := *, *, *, *, *;
      ghost var before := listing;
      listing := listing + [CloudInstance(u, capacity, state, stepGb, cidr, tag)];
      rest := rest - {u};
      forall v ensures ListsInstance(listing, v) <==> ListsInstance(before, v) || v == u {
        assert v == u ==> listing[|before|] in listing;
      }
    }
  }
}
