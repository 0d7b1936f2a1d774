/**
 * The multishare reconciler: one round brings ShareInfo and InstanceInfo objects into agreement with
 * each other and with the cloud, sizes and condemns instances, and starts cloud operations.
 *
 * A range over a Go map becomes a loop over an arbitrary order of its keys. `shareInfos` and
 * `instanceInfos` are the round's copies of the objects; the driver's own calls may change the stored
 * ShareInfo objects at any time, which `Interleave` stands for.
 */
module Reconciler {
  import opened Wrappers
  import opened Objects
  import opened Capacity
  import opened ApiServer
  import opened StatefulController
  import opened Writes
  import opened PointerRepair
  import opened Placement
  import opened RepairRun
  import opened Sizing
  import opened Upkeep
  import opened Observation
  import opened Requests
  import opened RoundEnd

  /** removeShareFromInstanceInfo. */
  method RemoveShareFromInstanceInfo(i: InstanceInfo, s: Name) returns (r: InstanceInfo, updated: bool)
    ensures updated <==> s in i.Names()
    ensures r == if updated then i.WithNames(Without(i.Names(), s)) else i
  {
    if i.Names() == [] {
      return i, false;
    }
    var kept := [];
    updated := false;
    for k := 0 to |i.Names()|
      invariant kept == Without(i.Names()[..k], s)
      invariant updated <==> s in i.Names()[..k]
    {
      WithoutSnoc(i.Names()[..k], i.Names()[k], s);
      assert i.Names()[..k + 1] == i.Names()[..k] + [i.Names()[k]];
      if i.Names()[k] == s {
        updated := true;
        continue;
      }
      kept := kept + [i.Names()[k]];
    }
    assert i.Names()[..|i.Names()|] == i.Names();
    r := if updated then i.WithNames(kept) else i;
  }

  /** The order in which a range over a Go map visits its keys: any order. */
  method ArbitraryOrder<T(==)>(keys: set<T>) returns (order: seq<T>)
    ensures Distinct(order)
    ensures forall k :: k in order <==> k in keys
  {
    order := [];
    var rest := keys;
    while rest != {}
      invariant rest <= keys
      invariant Distinct(order)
      invariant forall k :: k in order <==> k in keys && k !in rest
    {
      var k :| k in rest;
      order := order + [k];
      rest := rest - {k};
    }
  }

  /** The URI of a new instance, whose last part is a new UUID. */
  method UnusedUri(ls: map<Name, ShareInfo>, li: map<Uri, InstanceInfo>) returns (u: Uri)
    ensures u != "" && u !in li && forall n | n in ls :: ls[n].Handle() != u
  {
    ghost var longer := LongerUri(li.Keys + set n | n in ls :: ls[n].Handle());
    u :| u != "" && u !in li && forall n | n in ls :: ls[n].Handle() != u;
  }

  class Reconciler {
    const api: Store
    var shareInfos: map<Name, ShareInfo>
    var instanceInfos: map<Uri, InstanceInfo>
    ghost var refused: seq<(Uri, int)> // the failed updates of a wanted capacity, this round

    constructor (api: Store)
      ensures this.api == api && shareInfos == map[] && instanceInfos == map[]
    {
      this.api := api;
      shareInfos, instanceInfos := map[], map[];
    }

    ghost function Mine(): Copies
      reads this
    {
      Copies(shareInfos, instanceInfos)
    }

    ghost predicate Sound()
      reads this, api
    {
      api.Clean() && CopiesSafe(shareInfos, api.instances, api.pools)
    }

    ghost predicate Exact()
      reads this, api
    {
      shareInfos == api.shares && instanceInfos == api.instances
    }

    /**
     * The copies while shares are assigned. `sound` says that the invariant held when the stage began, and
     * so all the time; `exact` that no call fails and nobody else writes, so that copies and objects agree.
     */
    ghost predicate Working(sound: bool, exact: bool)
      reads this, api
    {
      && Work(Mine(), api.Now(), api.pools, sound) && (sound ==> api.unbroken)
      && (exact ==> api.reliable && Exact())
    }

    /** assignInstanceToShareInfo, for a share that has no instance yet. */
    method AssignInstanceToShareInfo(s: Name, u: Uri, ghost sound: bool, ghost exact: bool) returns (ok: bool)
      requires s in shareInfos && shareInfos[s].Handle() == "" && Working(sound, exact) && Lists(api.instances, u, s)
      modifies this`shareInfos, api`shares, api`unbroken, api`writes
      ensures Working(sound, exact) && (exact ==> ok)
      ensures shareInfos == if ok then old(shareInfos)[s := old(shareInfos)[s].WithHandle(u)] else old(shareInfos)
      ensures api.writes == old(api.writes) + 1
    {
      var base := shareInfos[s];
      ghost var mid;
      ok, mid := WriteShare(api, s, base, base.WithHandle(u).status.value);
      WorkLater(Mine(), old(api.Now()), mid, api.pools, sound);
      if ok {
        HandleWritten(Mine(), mid, s, base.WithHandle(u), u, api.pools, sound);
        shareInfos := shareInfos[s := base.WithHandle(u)];
      }
    }

    /** assignShareToInstanceInfo: no write when the instance lists the share already. */
    method AssignShareToInstanceInfo(u: Uri, info: InstanceInfo, s: Name) returns (r: InstanceInfo, ok: bool, ghost mid: World)
      requires u in api.instances && api.instances[u] == info
      modifies api`shares, api`instances, api`unbroken, api`writes
      ensures r == WithShare(info, s) && (api.reliable ==> ok && mid == old(api.Now()))
      ensures Between(old(api.Now()), mid) && api.Now() == if ok then mid.(instances := mid.instances[u := r]) else mid
      ensures api.writes == old(api.writes) + if s in info.Names() then 0 else 1
      ensures s in info.Names() ==> ok && mid == old(api.Now()) && r == info
      ensures old(api.Clean()) ==> Safe(mid, api.pools) && (Safe(api.Now(), api.pools) ==> api.Clean())
    {
      if s in info.Names() {
        mid := api.Now();
        return info, true, mid;
      }
      r := info.WithNames(info.Names() + [s]);
      ok, mid := WriteInstance(api, u, info, r);
    }

    /** generateInstanceInfo: needs a StorageClass with the tag, then creates the object. */
    method GenerateInstanceInfo(u: Uri, tag: Tag, params: VolumeSize) returns (r: InstanceInfo, ok: bool, ghost mid: World)
      modifies api`shares, api`instances, api`unbroken, api`writes
      ensures r == InstanceInfo(false, 1, tag, params, MIN_INSTANCE, None)
      ensures ok ==> api.pools.HasClass(tag) && u !in mid.instances
      ensures Between(old(api.Now()), mid) && api.Now() == if ok then mid.(instances := mid.instances[u := r]) else mid
      ensures api.writes == old(api.writes) + if api.pools.HasClass(tag) then 1 else 0
      ensures !api.pools.HasClass(tag) || api.reliable ==> mid == old(api.Now())
      ensures api.reliable ==> (ok <==> api.pools.HasClass(tag) && u !in old(api.instances))
      ensures old(api.Clean()) ==> Safe(mid, api.pools) && (Safe(api.Now(), api.pools) ==> api.Clean())
    {
      r := InstanceInfo(false, 1, tag, params, MIN_INSTANCE, None);
      if !api.pools.HasClass(tag) {
        mid := api.Now();
        return r, false, mid;
      }
      ok, mid := AddInstance(api, u, r);
    }

    /** The copies are exact but for one instance, which is stored like this. */
    ghost predicate ExactWith(u: Uri, info: InstanceInfo)
      reads this, api
    {
      api.reliable && shareInfos == api.shares && instanceInfos[u := info] == api.instances
    }

    /** generateInstanceInfo for a share. */
    method GenerateFor(s: Name, u: Uri, ghost sound: bool, ghost exact: bool) returns (info: InstanceInfo, ok: bool)
      requires s in shareInfos && u != "" && u !in instanceInfos && Working(sound, exact)
      modifies api`shares, api`instances, api`unbroken, api`writes
      ensures Working(sound, exact && !ok) && info == NewFor(shareInfos[s])
      ensures ok ==> u !in old(api.instances) && u in api.instances && api.instances[u] == info
      ensures if api.pools.HasClass(info.poolTag) then (exact ==> ok) && api.writes > old(api.writes)
              else !ok && api.writes == old(api.writes)
      ensures exact && ok ==> ExactWith(u, info)
    {
      ghost var mid;
      info, ok, mid := GenerateInstanceInfo(u, shareInfos[s].tag, shareInfos[s].params);
      WorkLater(Mine(), old(api.Now()), mid, api.pools, sound);
      if ok { InstanceWritten(Mine(), mid, u, info, api.pools, sound); }
    }

    /** Has the instance list the share, in the store first and then in the copy. */
    method PlaceAt(s: Name, u: Uri, info: InstanceInfo, ghost sound: bool, ghost exact: bool) returns (ok: bool)
      requires Working(sound, false) && (exact ==> ExactWith(u, info)) && u != "" && u in api.instances && api.instances[u] == info
      requires Distinct(info.Names()) && (sound ==> MayList(info, s, api.pools))
      modifies this`instanceInfos, api`shares, api`instances, api`unbroken, api`writes
      ensures Working(sound, exact) && (exact ==> ok)
      ensures instanceInfos == if ok then old(instanceInfos)[u := WithShare(info, s)] else old(instanceInfos)
      ensures ok ==> Lists(api.instances, u, s)
      ensures if s in info.Names() then ok && api.writes == old(api.writes) else api.writes > old(api.writes)
    {
      var actual;
      ghost var mid;
      actual, ok, mid := AssignShareToInstanceInfo(u, info, s);
      WorkLater(Mine(), old(api.Now()), mid, api.pools, sound);
      if ok {
        NameWritten(Mine(), mid, u, s, api.pools, sound);
        instanceInfos := instanceInfos[u := actual];
      }
    }

    /** Sends a live share back to the instance it points to, creating the object when it is missing. */
    method SendBack(s: Name, ghost sound: bool, ghost exact: bool) returns (ok: bool)
      requires s in shareInfos && !shareInfos[s].deleting && shareInfos[s].Handle() != "" && Working(sound, exact)
      modifies this`instanceInfos, api`shares, api`instances, api`unbroken, api`writes
      ensures Working(sound, exact) && api.writes >= old(api.writes)
      ensures instanceInfos == if ok then SentHome(old(instanceInfos), s, shareInfos[s]) else old(instanceInfos)
      ensures if HasHome(old(instanceInfos), shareInfos[s], api.pools) then ok || (!exact && api.writes > old(api.writes))
              else !ok && api.writes == old(api.writes)
    {
      var h := shareInfos[s].Handle();
      // In a sound state the instance exists and lists the share.
      assert sound ==> Lists(api.instances, h, s) by {
        if sound { assert CopySafe(s, shareInfos[s], api.instances, api.pools); }
      }
      if h in instanceInfos {
        ok := PlaceAt(s, h, instanceInfos[h], sound, exact);
      } else {
        ok := SendToNew(s, sound, exact);
      }
    }

    method SendToNew(s: Name, ghost sound: bool, ghost exact: bool) returns (ok: bool)
      requires s in shareInfos && shareInfos[s].Handle() != "" && shareInfos[s].Handle() !in instanceInfos && Working(sound, exact)
      requires sound ==> shareInfos[s].Handle() in api.instances
      modifies this`instanceInfos, api`shares, api`instances, api`unbroken, api`writes
      ensures Working(sound, exact) && api.writes >= old(api.writes)
      ensures instanceInfos == if ok then SentHome(old(instanceInfos), s, shareInfos[s]) else old(instanceInfos)
      ensures if api.pools.HasClass(shareInfos[s].tag) then ok || (!exact && api.writes > old(api.writes))
              else !ok && api.writes == old(api.writes)
    {
      var h := shareInfos[s].Handle();
      var info;
      info, ok := GenerateFor(s, h, sound, exact);
      if ok { ok := PlaceAt(s, h, info, sound, exact); }
    }

    /** Writes the visited instance without the shares that belong elsewhere. */
    method DropShares(u: Uri, clone: InstanceInfo, ghost sound: bool, ghost exact: bool) returns (ok: bool)
      requires u in instanceInfos && Working(sound, exact) && clone == instanceInfos[u].WithNames(clone.Names())
      requires Dropped(instanceInfos[u].Names(), clone.Names(), u, shareInfos, instanceInfos.Keys)
      modifies this`instanceInfos, api`shares, api`instances, api`unbroken, api`writes
      ensures Working(sound, exact) && (exact ==> ok)
      ensures instanceInfos == if ok then old(instanceInfos)[u := clone] else old(instanceInfos)
      ensures api.writes == old(api.writes) + 1
    {
      ghost var mid;
      ok, mid := WriteInstance(api, u, instanceInfos[u], clone);
      WorkLater(Mine(), old(api.Now()), mid, api.pools, sound);
      if ok {
        DropWritten(Mine(), mid, u, clone.Names(), instanceInfos.Keys, api.pools, sound);
        instanceInfos := instanceInfos[u := clone];
      }
    }

    /** Nothing to repair here: what is listed points back, or cannot be sent home. */
    ghost predicate StaysHere(u: Uri, s: Name)
      reads this, api
    {
      MayStay(s, u, shareInfos, instanceInfos.Keys, api.pools)
    }

    /** A share that points to another instance is sent there if it is live, and dropped from the clone. */
    method VisitStray(u: Uri, s: Name, clone: InstanceInfo, ghost sound: bool, ghost exact: bool) returns (clone': InstanceInfo, left: bool)
      requires u in instanceInfos && Working(sound, exact) && s in clone.Names()
      requires s in shareInfos && shareInfos[s].Handle() != "" && shareInfos[s].Handle() != u
      modifies this`instanceInfos, api`shares, api`instances, api`unbroken, api`writes
      ensures Working(sound, exact) && api.writes >= old(api.writes)
      ensures var c := old(Mine());
              && (left ==> Leaves(c, u, s, api.pools) && Mine() == Visit(c, u, s, api.pools))
              && (!left ==> Mine() == c && clone' == clone && (Leaves(c, u, s, api.pools) ==> !exact && api.writes > old(api.writes)))
              && (!Leaves(c, u, s, api.pools) ==> api.writes == old(api.writes))
      ensures left ==> clone' == clone.WithNames(Without(clone.Names(), s))
    {
      clone', left := clone, false;
      if !shareInfos[s].deleting {
        var sent := SendBack(s, sound, exact);
        if !sent {
          return;
        }
      }
      clone', left := RemoveShareFromInstanceInfo(clone, s);
    }

    /** One share of the visited instance: claimed, left, sent back, or dropped from the clone. */
    method VisitListed(u: Uri, s: Name, clone: InstanceInfo, updated: bool, ghost sound: bool, ghost exact: bool)
      returns (clone': InstanceInfo, updated': bool)
      requires u in instanceInfos && Working(sound, exact) && s in instanceInfos[u].Names() && s in clone.Names()
      modifies this`shareInfos, this`instanceInfos, api`shares, api`instances, api`unbroken, api`writes
      ensures Working(sound, exact) && api.writes >= old(api.writes)
      ensures var h, h' := Half(old(Mine()), clone.Names()), Half(Mine(), clone'.Names());
              (h' == h && !exact) || h' == VisitNext(h, u, s, api.pools)
      ensures (clone' == clone && updated' == updated) || (clone' == clone.WithNames(clone'.Names()) && updated')
      ensures if old(StaysHere(u, s)) then updated' == updated && clone' == clone && api.writes == old(api.writes) && Mine() == old(Mine())
              else updated' || api.writes > old(api.writes)
    {
      clone', updated' := clone, updated;
      if s in shareInfos {
        if shareInfos[s].Handle() == "" {
          var _ := AssignInstanceToShareInfo(s, u, sound, exact);
        } else if shareInfos[s].Handle() != u {
          var left;
          clone', left := VisitStray(u, s, clone, sound, exact);
          updated' := updated || left;
        }
      }
    }

    /** The visit of an instance after its first i shares. */
    ghost predicate InVisit(first: Copies, u: Uri, i: nat, clone: InstanceInfo, updated: bool, sound: bool, exact: bool)
      reads this, api
    {
      var h := Half(Mine(), clone.Names());
      && Working(sound, exact) && Visiting(first, u, i, h, api.pools)
      && (exact ==> h == VisitFirst(first, u, i, api.pools))
      && clone == if updated then first.li[u].WithNames(clone.Names()) else first.li[u]
    }

    /** As long as nothing had to be repaired nothing was, and otherwise a write was tried or is due. */
    ghost predicate VisitSpent(first: Copies, u: Uri, i: nat, updated: bool, writes: nat)
      reads this, api
    {
      if FirstStay(first, u, i, api.pools) then !updated && api.writes == writes && Mine() == first
      else api.writes >= writes && (updated || api.writes > writes)
    }

    method VisitAt(ghost first: Copies, u: Uri, i: nat, clone: InstanceInfo, updated: bool, ghost writes: nat, ghost sound: bool, ghost exact: bool)
      returns (clone': InstanceInfo, updated': bool)
      requires u in instanceInfos && InVisit(first, u, i, clone, updated, sound, exact) && i < |instanceInfos[u].Names()|
      requires VisitSpent(first, u, i, updated, writes)
      modifies this`shareInfos, this`instanceInfos, api`shares, api`instances, api`unbroken, api`writes
      ensures InVisit(first, u, i + 1, clone', updated', sound, exact)
      ensures VisitSpent(first, u, i + 1, updated', writes)
    {
      var s := instanceInfos[u].Names()[i];
      clone', updated' := VisitListed(u, s, clone, updated, sound, exact);
      WithNamesTwice(first.li[u], clone.Names(), clone'.Names());
      VisitingStep(first, u, i, Half(old(Mine()), clone.Names()), Half(Mine(), clone'.Names()), api.pools);
    }

    /** The inner loop of fixTwoWayPointers: all shares one instance lists. */
    method VisitShares(u: Uri, ghost sound: bool, ghost exact: bool) returns (clone: InstanceInfo, updated: bool)
      requires u in instanceInfos && Working(sound, exact)
      modifies this`shareInfos, this`instanceInfos, api`shares, api`instances, api`unbroken, api`writes
      ensures InVisit(old(Mine()), u, |old(instanceInfos)[u].Names()|, clone, updated, sound, exact)
      ensures VisitSpent(old(Mine()), u, |old(instanceInfos)[u].Names()|, updated, old(api.writes))
    {
      ghost var first, writes := Mine(), api.writes;
      var count := |instanceInfos[u].Names()|;
      clone, updated := instanceInfos[u], false;
      VisitingStart(first, u, api.pools);
      for i := 0 to count
        invariant u in instanceInfos && |instanceInfos[u].Names()| == count
        invariant InVisit(first, u, i, clone, updated, sound, exact) && VisitSpent(first, u, i, updated, writes)
      {
        clone, updated := VisitAt(first, u, i, clone, updated, writes, sound, exact);
      }
    }

    /** Every share the instance lists stays where it is. */
    ghost predicate SettledAt(u: Uri)
      reads this, api
    {
      u in instanceInfos && PointsBack(instanceInfos, shareInfos, u, instanceInfos.Keys, api.pools)
    }

    /**
     * fixTwoWayPointers, the visit of one instance: every share it lists is claimed if it has no
     * instance, and otherwise sent back to the instance it points to.
     */
    method FixInstance(u: Uri, ghost sound: bool, ghost exact: bool)
      requires u in instanceInfos && Working(sound, exact)
      modifies this`shareInfos, this`instanceInfos, api`shares, api`instances, api`unbroken, api`writes
      ensures Working(sound, exact) && Fixed(old(Mine()), u, Mine(), api.pools)
      ensures exact ==> Mine() == RepairOne(old(Mine()), u, api.pools)
      ensures if old(SettledAt(u)) then Mine() == old(Mine()) && api.writes == old(api.writes) else api.writes > old(api.writes)
    {
      if instanceInfos[u].status.None? {
        NothingListed(Mine(), u, api.pools);
        return;
      }
      ghost var first, writes := Mine(), api.writes;
      var clone, updated := VisitShares(u, sound, exact);
      FirstStayAll(first, u, api.pools);
      EndVisit(first, u, clone, updated, writes, sound, exact);
    }

    /** Writes back what the visited instance is to list, if that has changed. */
    method EndVisit(ghost first: Copies, u: Uri, clone: InstanceInfo, updated: bool, ghost writes: nat, ghost sound: bool, ghost exact: bool)
      requires u in first.li && first.li[u].status.Some? && InVisit(first, u, |first.li[u].Names()|, clone, updated, sound, exact)
      requires VisitSpent(first, u, |first.li[u].Names()|, updated, writes)
      modifies this`instanceInfos, api`shares, api`instances, api`unbroken, api`writes
      ensures Working(sound, exact) && Fixed(first, u, Mine(), api.pools)
      ensures exact ==> Mine() == RepairOne(first, u, api.pools)
      ensures if FirstStay(first, u, |first.li[u].Names()|, api.pools) then Mine() == first && api.writes == writes else api.writes > writes
    {
      VisitEnds(first, u, Half(Mine(), clone.Names()), exact, api.pools);
      if updated {
        var _ := DropShares(u, clone, sound, exact);
      }
    }

    /** The repair after these visits. */
    ghost predicate InRepair(first: Copies, visited: seq<Uri>, writes: nat, sound: bool, exact: bool)
      reads this, api
    {
      && Working(sound, exact) && Repairing(first, Mine(), api.pools)
      && (exact ==> Mine() == RepairAll(first, visited, api.pools))
      && if SettledIn(first, visited, api.pools) then Mine() == first && api.writes == writes else api.writes > writes
    }

    method FixNext(ghost first: Copies, ghost visited: seq<Uri>, u: Uri, ghost writes: nat, ghost sound: bool, ghost exact: bool)
      requires InRepair(first, visited, writes, sound, exact)
      modifies this`shareInfos, this`instanceInfos, api`shares, api`instances, api`unbroken, api`writes
      ensures InRepair(first, visited + [u], writes, sound, exact)
    {
      RepairAllNext(first, visited, u, api.pools);
      if u in instanceInfos {
        ghost var c := Mine();
        FixInstance(u, sound, exact);
        RepairingStep(first, c, u, Mine(), api.pools);
      }
    }

    /**
     * fixTwoWayPointers over all instances, in any order; an instance created on the way may or may not
     * be visited.
     *
     * When every call succeeds, the outcome is that of `RepairAll`. Whatever fails, a handle that was set
     * is never changed and a share leaves a list only when it belongs elsewhere. Something is written
     * exactly when some instance lists a share that neither points back nor is stranded.
     */
    method FixTwoWayPointers(ghost sound: bool, ghost exact: bool) returns (ghost visited: seq<Uri>)
      requires Working(sound, exact)
      modifies this`shareInfos, this`instanceInfos, api`shares, api`instances, api`unbroken, api`writes
      ensures Working(sound, exact) && AnyOrder(old(Mine()), visited)
      ensures Repairing(old(Mine()), Mine(), api.pools)
      ensures exact ==> Mine() == RepairAll(old(Mine()), visited, api.pools)
      ensures if Settled(old(Mine()), api.pools) then Mine() == old(Mine()) && api.writes == old(api.writes) else api.writes > old(api.writes)
    {
      ghost var first, writes := Mine(), api.writes;
      var inserted: set<Uri> := *;
      var order := ArbitraryOrder(instanceInfos.Keys + inserted);
      RepairStart(first, api.pools);
      for k := 0 to |order|
        invariant InRepair(first, order[..k], writes, sound, exact)
      {
        TakeNext(order, k);
        FixNext(first, order[..k], order[k], writes, sound, exact);
      }
      TakeAll(order);
      visited := order;
    }

    /** The search for an instance with room, in any order; a failed update moves on to the next. */
    method PlaceInExisting(s: Name, ghost sound: bool, ghost exact: bool) returns (u: Uri, failed: bool)
      requires s in shareInfos && Working(sound, exact)
      modifies this`instanceInfos, api`shares, api`instances, api`unbroken, api`writes
      ensures Working(sound, exact)
      ensures if u != "" && !failed then
                u in old(instanceInfos) && Fits(old(instanceInfos)[u], shareInfos[s], api.pools)
                && instanceInfos == old(instanceInfos)[u := WithShare(old(instanceInfos)[u], s)] && Lists(api.instances, u, s)
              else instanceInfos == old(instanceInfos)
      ensures u == "" <==> FitsNowhere(shareInfos[s], old(instanceInfos), api.pools)
      ensures if u == "" then !failed && api.writes == old(api.writes) else api.writes >= old(api.writes)
      ensures failed ==> !exact && api.writes > old(api.writes)
    {
      u, failed := "", false;
      var order := ArbitraryOrder(instanceInfos.Keys);
      for k := 0 to |order|
        invariant Working(sound, exact) && instanceInfos == old(instanceInfos)
        invariant u == "" ==> !failed && api.writes == old(api.writes)
                              && forall j | 0 <= j < k :: !Fits(instanceInfos[order[j]], shareInfos[s], api.pools)
        invariant u != "" ==> failed && !exact && api.writes > old(api.writes)
                              && !FitsNowhere(shareInfos[s], instanceInfos, api.pools)
      {
        if Fits(instanceInfos[order[k]], shareInfos[s], api.pools) {
          u := order[k];
          if sound { FitsMayList(Mine(), api.Now(), u, s, api.pools); }
          var ok := PlaceAt(s, u, instanceInfos[u], sound, exact);
          failed := !ok;
          if ok {
            break;
          }
        }
      }
    }

    /** A new instance for the share, under a URI of its own. */
    method PlaceInNew(s: Name, ghost sound: bool, ghost exact: bool) returns (u: Uri, ok: bool)
      requires s in shareInfos && Working(sound, exact)
      modifies this`instanceInfos, api`shares, api`instances, api`unbroken, api`writes
      ensures Working(sound, exact)
      ensures u != "" && u !in old(instanceInfos) && forall n | n in shareInfos :: shareInfos[n].Handle() != u
      ensures if ok then instanceInfos == old(instanceInfos)[u := WithShare(NewFor(shareInfos[s]), s)] && Lists(api.instances, u, s)
              else instanceInfos == old(instanceInfos)
      ensures if api.pools.HasClass(shareInfos[s].tag) then (exact ==> ok) && api.writes > old(api.writes)
              else !ok && api.writes == old(api.writes)
    {
      u := UnusedUri(shareInfos, instanceInfos);
      var info;
      info, ok := GenerateFor(s, u, sound, exact);
      if ok {
        if sound { NewMayList(Mine(), api.Now(), s, api.pools); }
        ok := PlaceAt(s, u, info, sound, exact);
      }
    }

    /** Finds or creates an instance for the share and has it list the share. */
    method Enlist(s: Name, ghost sound: bool, ghost exact: bool) returns (u: Uri, ok: bool)
      requires s in shareInfos && Working(sound, exact)
      modifies this`instanceInfos, api`shares, api`instances, api`unbroken, api`writes
      ensures Working(sound, exact) && api.writes >= old(api.writes)
      ensures if ok then Enlisted(old(instanceInfos), shareInfos, instanceInfos, s, u, api.pools) && Lists(api.instances, u, s)
              else instanceInfos == old(instanceInfos)
      ensures if FitsNowhere(shareInfos[s], old(instanceInfos), api.pools) && !api.pools.HasClass(shareInfos[s].tag)
              then !ok && api.writes == old(api.writes) else ok || (!exact && api.writes > old(api.writes))
    {
      var failed;
      u, failed := PlaceInExisting(s, sound, exact);
      ok := !failed;
      if u == "" {
        u, ok := PlaceInNew(s, sound, exact);
      }
    }

    /** assignSharesToEligibleOrNewInstances, for one share without instance. */
    method AssignShare(s: Name, ghost sound: bool, ghost exact: bool) returns (ghost u: Uri)
      requires s in shareInfos && Working(sound, exact)
      requires shareInfos[s].Handle() == "" && !shareInfos[s].deleting && shareInfos[s].tag != ""
      modifies this`shareInfos, this`instanceInfos, api`shares, api`instances, api`unbroken, api`writes
      ensures Working(sound, exact)
      ensures shareInfos == if u != "" then old(shareInfos)[s := old(shareInfos)[s].WithHandle(u)] else old(shareInfos)
      ensures exact ==> Outcome(old(instanceInfos), old(shareInfos), instanceInfos, shareInfos, s, u, api.pools)
      ensures if old(Unassignable(shareInfos[s], instanceInfos, api.pools)) then Mine() == old(Mine()) && api.writes == old(api.writes)
              else api.writes > old(api.writes)
    {
      u := "";
      var uri, ok := Enlist(s, sound, exact);
      if ok {
        var written := AssignInstanceToShareInfo(s, uri, sound, exact);
        u := if written then uri else "";
      }
    }

    /** The stage when these shares have been dealt with. */
    ghost predicate InPlacing(first: Copies, done: seq<Name>, writes: nat, sound: bool, exact: bool)
      reads this, api
    {
      && Working(sound, exact) && HandlesKept(first.ls, shareInfos)
      && (exact ==> PlacedSoFar(first.ls, first.li, done, shareInfos, instanceInfos, api.pools))
      && if Handled(done, first.li, first.ls, api.pools) then Mine() == first && api.writes == writes else api.writes > writes
    }

    /** Whatever one share needs. */
    method Settle(s: Name, ghost sound: bool, ghost exact: bool) returns (ghost u: Uri)
      requires s in shareInfos && Working(sound, exact)
      modifies this`shareInfos, this`instanceInfos, api`shares, api`instances, api`unbroken, api`writes
      ensures Working(sound, exact) && HandlesKept(old(shareInfos), shareInfos)
      ensures exact ==> Outcome(old(instanceInfos), old(shareInfos), instanceInfos, shareInfos, s, u, api.pools)
      ensures if old(shareInfos[s].Handle() != "" || Unassignable(shareInfos[s], instanceInfos, api.pools))
              then Mine() == old(Mine()) && api.writes == old(api.writes) else api.writes > old(api.writes)
    {
      u := "";
      if shareInfos[s].Handle() == "" && !shareInfos[s].deleting && shareInfos[s].tag != "" {
        u := AssignShare(s, sound, exact);
      }
    }

    method PlaceNext(ghost first: Copies, ghost done: seq<Name>, s: Name, ghost writes: nat, ghost sound: bool, ghost exact: bool)
      requires s in shareInfos && InPlacing(first, done, writes, sound, exact)
      modifies this`shareInfos, this`instanceInfos, api`shares, api`instances, api`unbroken, api`writes
      ensures InPlacing(first, done + [s], writes, sound, exact)
    {
      ghost var c := Mine();
      ghost var u := Settle(s, sound, exact);
      HandlesKeptTransitive(first.ls, c.ls, shareInfos);
      HandledNext(done, s, first.li, first.ls, api.pools);
      if exact { OutcomeStep(first.ls, first.li, c.li, c.ls, instanceInfos, shareInfos, done, s, u, api.pools); }
    }

    /**
     * assignSharesToEligibleOrNewInstances over all shares, in any order.
     *
     * When every call succeeds, each share then has an instance unless it cannot be placed, and each
     * newly assigned share and an instance of its own pool point to each other. What was settled stays
     * settled. Something is written exactly when there is a share that can be placed.
     */
    method AssignSharesToEligibleOrNewInstances(ghost sound: bool, ghost exact: bool)
      requires Working(sound, exact)
      modifies this`shareInfos, this`instanceInfos, api`shares, api`instances, api`unbroken, api`writes
      ensures Working(sound, exact) && HandlesKept(old(shareInfos), shareInfos)
      ensures exact ==> AllPlaced(old(shareInfos), old(instanceInfos), shareInfos, instanceInfos, api.pools)
      ensures if old(NoneToPlace(instanceInfos, shareInfos, api.pools)) then Mine() == old(Mine()) && api.writes == old(api.writes)
              else api.writes > old(api.writes)
    {
      ghost var first, writes := Mine(), api.writes;
      var order := ArbitraryOrder(shareInfos.Keys);
      for k := 0 to |order|
        invariant InPlacing(first, order[..k], writes, sound, exact)
      {
        TakeNext(order, k);
        assert order[k] in order;
        PlaceNext(first, order[..k], order[k], writes, sound, exact);
      }
      TakeAll(order);
    }

    /** The copies when the round has marked these instances, all empty, only in the store. */
    ghost predicate WorkingUpTo(condemned: set<Uri>, sound: bool)
      reads this, api
    {
      && Work(Copies(shareInfos, Marked(instanceInfos, condemned)), api.Now(), api.pools, sound) && (sound ==> api.unbroken)
      && forall u | u in condemned :: u in instanceInfos && InstanceEmpty(instanceInfos[u])
    }

    /** instanceInfoNewCapacity: looks the listed shares up in the store, one by one. */
    method InstanceInfoNewCapacity(i: InstanceInfo, ghost sound: bool) returns (r: InstanceInfo, updated: bool)
      requires InStep(shareInfos, api.shares) && (sound ==> Sound())
      modifies api`shares, api`unbroken
      ensures Between(old(api.Now()), api.Now()) && (sound ==> api.Clean())
      ensures r == i.(capacity := r.capacity) && (updated <==> r.capacity != i.capacity)
      ensures i.Names() == [] ==> !updated
      ensures sound && i.Names() != [] ==> Covers(r, shareInfos)
      ensures api.reliable ==> api.shares == old(api.shares)
                               && (i.Names() != [] ==> r.capacity == TargetCapacity(i, api.shares))
    {
      if i.Names() == [] {
        return i, false;
      }
      var names := i.Names();
      var total := 0;
      ghost var was := api.Now();
      for k := 0 to |names|
        invariant Between(was, api.Now()) && (sound ==> api.Clean())
        invariant InStep(shareInfos, api.shares) && (api.reliable ==> api.Now() == was)
        invariant sound ==> total >= Sum(CapsOf(names[..k], Live(shareInfos)))
        invariant api.reliable ==> total == Sum(CapsOf(names[..k], was.shares))
      {
        ghost var before := api.shares;
        ghost var mid := Pause(api);
        InStepLater(shareInfos, before, api.shares);
        SumOfCapsStep(names, k, api.shares);
        if sound { LookedUp(names, k, shareInfos, api.shares, total); }
        if names[k] in api.shares {
          total := total + api.shares[names[k]].capacity;
        }
      }
      TakeAll(names);
      r := i.(capacity := NewCapacity(total, i.StatusOrNew().stepGb));
      updated := r.capacity != i.capacity;
      if sound { CopiesCovered(i, shareInfos, total, api.instances, api.pools); }
    }

    /** Marks an empty instance; the copy is left as it was. */
    method Condemn(u: Uri, ghost condemned: set<Uri>, ghost sound: bool) returns (ok: bool)
      requires u in instanceInfos && u !in condemned && InstanceEmpty(instanceInfos[u]) && WorkingUpTo(condemned, sound)
      modifies api`shares, api`instances, api`unbroken, api`writes
      ensures WorkingUpTo(if ok then condemned + {u} else condemned, sound)
      ensures if instanceInfos[u].finalizers == 0 then !ok && api.Now() == old(api.Now()) && api.writes == old(api.writes)
              else api.writes > old(api.writes)
      ensures api.instances == if ok then old(api.instances)[u := instanceInfos[u].(deleting := true)] else old(api.instances)
      ensures api.reliable ==> api.shares == old(api.shares) && (ok <==> instanceInfos[u].finalizers != 0)
    {
      if instanceInfos[u].finalizers == 0 {
        return false;
      }
      assert Marked(instanceInfos, condemned)[u] == instanceInfos[u];
      ghost var mid;
      ok, mid := MarkInstance(api, u);
      WorkLater(Copies(shareInfos, Marked(instanceInfos, condemned)), old(api.Now()), mid, api.pools, sound);
      if ok { MarkWritten(shareInfos, instanceInfos, condemned, mid, u, api.pools, sound); }
    }

    /** Gives the instance another wanted capacity. */
    method Resize(u: Uri, r: InstanceInfo, ghost condemned: set<Uri>, ghost sound: bool) returns (ok: bool)
      requires u in instanceInfos && u !in condemned && WorkingUpTo(condemned, sound)
      requires r == instanceInfos[u].(capacity := r.capacity)
      modifies this`instanceInfos, this`refused, api`shares, api`instances, api`unbroken, api`writes
      ensures WorkingUpTo(condemned, sound) && api.writes > old(api.writes)
      ensures instanceInfos == if ok then old(instanceInfos)[u := r] else old(instanceInfos)
      ensures api.instances == if ok then old(api.instances)[u := r] else old(api.instances)
      ensures refused == if ok then old(refused) else old(refused) + [(u, r.capacity)]
      ensures api.reliable ==> ok && api.shares == old(api.shares)
    {
      assert Marked(instanceInfos, condemned)[u] == instanceInfos[u];
      ghost var mid;
      ok, mid := WriteInstance(api, u, instanceInfos[u], r);
      WorkLater(Copies(shareInfos, Marked(instanceInfos, condemned)), old(api.Now()), mid, api.pools, sound);
      if !ok {
        refused := refused + [(u, r.capacity)];
      } else {
        SizeWritten(shareInfos, instanceInfos, condemned, mid, u, r, api.pools, sound);
        instanceInfos := instanceInfos[u := r];
      }
    }

    /** Gives the instance the capacity its shares need: `stuck` if that fails. */
    method Fit(u: Uri, ghost condemned: set<Uri>, ghost sound: bool) returns (ghost stuck: bool)
      requires u in instanceInfos && u !in condemned && WorkingUpTo(condemned, sound)
      requires !instanceInfos[u].deleting && !InstanceEmpty(instanceInfos[u])
      modifies this`instanceInfos, this`refused, api`shares, api`instances, api`unbroken, api`writes
      ensures WorkingUpTo(condemned, sound)
      ensures u in instanceInfos && instanceInfos == old(instanceInfos)[u := instanceInfos[u]]
      ensures instanceInfos[u] == old(instanceInfos)[u].(capacity := instanceInfos[u].capacity)
      ensures sound && !stuck ==> Provided(instanceInfos[u], shareInfos)
      ensures old(refused) <= refused && (stuck ==> Refused(u, instanceInfos[u], old(|refused|), refused))
      ensures api.reliable ==>
                !stuck && api.shares == old(api.shares) && api.instances == old(api.instances)[u := Sized(old(instanceInfos)[u], api.shares)]
      ensures api.reliable ==> if Sized(old(instanceInfos)[u], api.shares) == old(instanceInfos)[u]
                               then api.writes == old(api.writes) && instanceInfos == old(instanceInfos) else api.writes > old(api.writes)
    {
      stuck := false;
      var info := instanceInfos[u];
      assert Marked(instanceInfos, condemned)[u] == info;
      assert sound ==> Sound();
      var r, updated := InstanceInfoNewCapacity(info, sound);
      WorkLater(Copies(shareInfos, Marked(instanceInfos, condemned)), old(api.Now()), api.Now(), api.pools, sound);
      if updated {
        var ok := Resize(u, r, condemned, sound);
        stuck := !ok;
        assert stuck ==> refused[old(|refused|)] == (u, r.capacity);
      }
    }

    /** One instance of the stage: `stuck` if it did not get the capacity it needs. */
    method SizeInstance(u: Uri, ghost condemned: set<Uri>, ghost sound: bool) returns (ghost condemned': set<Uri>, ghost stuck: bool)
      requires u in instanceInfos && u !in condemned && WorkingUpTo(condemned, sound)
      modifies this`instanceInfos, this`refused, api`shares, api`instances, api`unbroken, api`writes
      ensures WorkingUpTo(condemned', sound) && condemned' <= condemned + {u}
      ensures u in instanceInfos && instanceInfos == old(instanceInfos)[u := instanceInfos[u]]
      ensures instanceInfos[u] == old(instanceInfos)[u].(capacity := instanceInfos[u].capacity)
      ensures sound && !stuck ==> Provided(instanceInfos[u], shareInfos)
      ensures old(refused) <= refused && (stuck ==> Refused(u, instanceInfos[u], old(|refused|), refused))
      ensures api.reliable ==>
                !stuck && api.shares == old(api.shares) && api.instances == old(api.instances)[u := Sized(old(instanceInfos)[u], api.shares)]
      ensures api.reliable ==> if Sized(old(instanceInfos)[u], api.shares) == old(instanceInfos)[u]
                               then api.writes == old(api.writes) && instanceInfos == old(instanceInfos) else api.writes > old(api.writes)
    {
      condemned', stuck := condemned, false;
      assert Marked(instanceInfos, condemned)[u] == instanceInfos[u];
      if instanceInfos[u].deleting {
        return;
      }
      if InstanceEmpty(instanceInfos[u]) {
        var ok := Condemn(u, condemned, sound);
        condemned' := if ok then condemned + {u} else condemned;
        return;
      }
      stuck := Fit(u, condemned, sound);
    }

    /** The stage half way. */
    ghost predicate Midway(first: map<Uri, InstanceInfo>, done: seq<Uri>, condemned: set<Uri>, stuck: set<Uri>,
                           writes: nat, sound: bool, exact: bool)
      reads this, api
    {
      && WorkingUpTo(condemned, sound)
      && AllRefused(stuck, instanceInfos, 0, refused)
      && HalfSized(first, instanceInfos, api.instances, shareInfos, done, condemned, stuck, sound, exact)
      && (exact ==> api.reliable && api.shares == shareInfos)
      && (exact ==> if SizedPart(first, done, shareInfos) == first then api.writes == writes && instanceInfos == first else api.writes > writes)
    }

    method SizeNext(u: Uri, ghost first: map<Uri, InstanceInfo>, ghost done: seq<Uri>, ghost condemned: set<Uri>, ghost stuck: set<Uri>,
                    ghost writes: nat, ghost sound: bool, ghost exact: bool)
      returns (ghost condemned': set<Uri>, ghost stuck': set<Uri>)
      requires u in instanceInfos && u !in done && Midway(first, done, condemned, stuck, writes, sound, exact)
      modifies this`instanceInfos, this`refused, api`shares, api`instances, api`unbroken, api`writes
      ensures Midway(first, done + [u], condemned', stuck', writes, sound, exact)
    {
      ghost var li, instances, ls, log, halted := instanceInfos, api.instances, shareInfos, refused, false;
      SizedPartNext(first, li, instances, done, u, ls, condemned, stuck, sound, exact);
      condemned', halted := SizeInstance(u, condemned, sound);
      HalfSizedStep(first, li, instances, ls, instanceInfos, api.instances, done, u, condemned, condemned', stuck, halted, sound, exact);
      RefusedStep(stuck, u, halted, li, instanceInfos, 0, log, refused);
      stuck' := if halted then stuck + {u} else stuck;
    }

    /**
     * deleteOrResizeInstances over all instances, in any order. When every call succeeds, empty instances
     * end up marked and the others of the least capacity for their shares, and something is written exactly
     * when one of them was not so already. Whatever fails, an instance is on its way out, empty, or to be large enough for all shares
     * it lists, unless it is stuck: the update of its wanted capacity failed.
     */
    method DeleteOrResizeInstances(ghost sound: bool, ghost exact: bool) returns (ghost condemned: set<Uri>, ghost stuck: set<Uri>)
      requires Working(sound, exact)
      modifies this`instanceInfos, this`refused, api`shares, api`instances, api`unbroken, api`writes
      ensures WorkingUpTo(condemned, sound) && (sound ==> AllProvided(instanceInfos, shareInfos, stuck))
      ensures AllRefused(stuck, instanceInfos, 0, refused)
      ensures OnlySized(old(instanceInfos), instanceInfos)
      ensures exact ==> stuck == {} && api.shares == old(api.shares) && api.instances == SizedAll(old(instanceInfos), shareInfos)
      ensures exact ==> AllAfterStage(old(instanceInfos), api.instances, shareInfos)
      ensures exact ==> if SizedAll(old(instanceInfos), shareInfos) == old(instanceInfos) then api.writes == old(api.writes)
                        else api.writes > old(api.writes)
    {
      condemned, stuck, refused := {}, {}, [];
      ghost var first, writes := instanceInfos, api.writes;
      HalfSizedStart(instanceInfos, api.instances, shareInfos, sound, exact);
      var order := ArbitraryOrder(instanceInfos.Keys);
      for k := 0 to |order|
        invariant instanceInfos.Keys == first.Keys && Midway(first, order[..k], condemned, stuck, writes, sound, exact)
      {
        TakeNext(order, k);
        assert order[k] in instanceInfos;
        condemned, stuck := SizeNext(order[k], first, order[..k], condemned, stuck, writes, sound, exact);
      }
      TakeAll(order);
      HalfSizedDone(first, instanceInfos, api.instances, shareInfos, order, condemned, stuck, sound, exact);
      SizedAllIsAfterStage(first, shareInfos);
    }

    /**
     * assignSharesToInstances: repair, place, then condemn and size. Something is written exactly when the
     * objects were not quiet.
     *
     * When every call succeeds, every live share with a pool is then assigned unless it cannot be placed: to
     * the instance it pointed to, to one that listed it, or to one of its own pool. The stored objects are
     * quiet afterwards exactly when the repair, in the order it took, has settled them. Whatever fails, the
     * invariant is kept.
     */
    method AssignSharesToInstances(ghost sound: bool, ghost exact: bool)
      returns (ghost visited: seq<Uri>, ghost condemned: set<Uri>, ghost stuck: set<Uri>)
      requires Working(sound, exact)
      modifies this, api`shares, api`instances, api`unbroken, api`writes
      ensures WorkingUpTo(condemned, sound) && (sound ==> AllProvided(instanceInfos, shareInfos, stuck))
      ensures AllRefused(stuck, instanceInfos, 0, refused) && HandlesKept(old(shareInfos), shareInfos)
      ensures AnyOrder(old(Mine()), visited)
      ensures exact ==> stuck == {} && api.shares == shareInfos && Tidy(api.instances)
      ensures exact ==> AssignedWell(old(shareInfos), old(instanceInfos), shareInfos, api.instances, api.pools)
      ensures exact ==> Assigned(old(instanceInfos), Mine(), api.instances, api.pools)
      ensures exact ==> (Quiet(api.instances, api.shares, api.pools) <==> Settled(RepairAll(old(Mine()), visited, api.pools), api.pools))
      ensures exact ==> if old(Quiet(instanceInfos, shareInfos, api.pools))
                        then api.writes == old(api.writes) && api.shares == old(api.shares) && api.instances == old(api.instances)
                        else api.writes > old(api.writes)
    {
      ghost var first, placed := Mine(), map[];
      visited := FixTwoWayPointers(sound, exact);
      ghost var repaired := Mine();
      placed, condemned, stuck := PlaceAndSize(sound, exact);
      HandlesKeptTransitive(first.ls, repaired.ls, shareInfos);
      if exact {
        StagesEnd(first, visited, placed, shareInfos, api.pools);
        CopiesEnd(first, visited, placed, Mine(), condemned, api.instances, api.pools);
      }
    }

    /** The second and the third stage. */
    method PlaceAndSize(ghost sound: bool, ghost exact: bool)
      returns (ghost placed: map<Uri, InstanceInfo>, ghost condemned: set<Uri>, ghost stuck: set<Uri>)
      requires Working(sound, exact)
      modifies this, api`shares, api`instances, api`unbroken, api`writes
      ensures WorkingUpTo(condemned, sound) && (sound ==> AllProvided(instanceInfos, shareInfos, stuck))
      ensures AllRefused(stuck, instanceInfos, 0, refused) && HandlesKept(old(shareInfos), shareInfos) && OnlySized(placed, instanceInfos)
      ensures exact ==> stuck == {} && api.shares == shareInfos && Tidy(api.instances) && api.instances == SizedAll(placed, shareInfos)
      ensures exact ==> AllPlaced(old(shareInfos), old(instanceInfos), shareInfos, placed, api.pools)
      ensures exact ==> if old(NoneToPlace(instanceInfos, shareInfos, api.pools)) && old(SizedAll(instanceInfos, shareInfos) == instanceInfos)
                        then api.writes == old(api.writes) && api.shares == old(api.shares) && api.instances == old(api.instances)
                        else api.writes > old(api.writes)
    {
      AssignSharesToEligibleOrNewInstances(sound, exact);
      placed := instanceInfos;
      condemned, stuck := DeleteOrResizeInstances(sound, exact);
    }

    /** Reads all objects afresh. */
    method Reread()
      modifies this`shareInfos, this`instanceInfos
      ensures Exact()
    {
      shareInfos, instanceInfos := api.shares, api.instances;
    }

    /**
     * Quiescence: when no call fails, a second stage on the re-read result of a first one issues no write
     * exactly when the first one's repair, in the order it took, has settled every share. `SettlesIff` says
     * when that is so whatever the order.
     */
    method AssignTwice() returns (secondWrites: nat, ghost visited: seq<Uri>, ghost once: Copies)
      requires api.reliable && Tidy(api.instances)
      modifies this, api`shares, api`instances, api`unbroken, api`writes
      ensures AnyOrder(old(Copies(api.shares, api.instances)), visited)
      ensures secondWrites == 0 <==> Settled(RepairAll(old(Copies(api.shares, api.instances)), visited, api.pools), api.pools)
      ensures AssignedWell(old(api.shares), old(api.instances), once.ls, once.li, api.pools)
      ensures secondWrites == 0 ==> once == Copies(api.shares, api.instances)
    {
      Reread();
      ghost var condemned, stuck, second;
      visited, condemned, stuck := AssignSharesToInstances(false, true);
      once := Copies(api.shares, api.instances);
      var writes := api.writes;
      Reread();
      second, condemned, stuck := AssignSharesToInstances(false, true);
      secondWrites := api.writes - writes;
    }

    // The start of a round: the objects are brought up to date with what the cloud lists.

    /** The copies while they are being read. */
    ghost predicate Reading(sound: bool)
      reads this, api
    {
      Working(sound, false) && Tidy(api.instances)
    }

    /** Reads the object of a listed share, or creates it. */
    method GetOrCreateShareInfo(c: CloudShare, ghost sound: bool) returns (ok: bool)
      requires Reading(sound) && (sound ==> (c.name, c.parent) in api.cloudShares)
      modifies this`shareInfos, api`shares, api`unbroken, api`writes
      ensures Reading(sound)
      ensures if ok then c.name in shareInfos && shareInfos == old(shareInfos)[c.name := shareInfos[c.name]]
              else shareInfos == old(shareInfos)
      ensures api.reliable ==> ok && api.shares == old(api.shares)[c.name := shareInfos[c.name]]
      ensures api.reliable && c.name !in old(api.shares) ==> shareInfos[c.name] == ShareInfo(false, "", Absent, c.capacity, None)
    {
      ghost var mid := Pause(api);
      WorkLater(Mine(), old(api.Now()), mid, api.pools, sound);
      if c.name in api.shares {
        ShareRead(Mine(), mid, c.name, api.pools, sound);
        shareInfos := shareInfos[c.name := api.shares[c.name]];
        return true;
      }
      HeldHasObject(mid, c, api.pools, sound);
      ok := AddShareInfo(c, sound);
    }

    method AddShareInfo(c: CloudShare, ghost sound: bool) returns (ok: bool)
      requires Reading(sound) && !sound && c.name !in api.shares
      modifies this`shareInfos, api`shares, api`unbroken, api`writes
      ensures Reading(sound)
      ensures if ok then c.name in shareInfos && shareInfos == old(shareInfos)[c.name := shareInfos[c.name]]
              else shareInfos == old(shareInfos)
      ensures api.reliable ==> ok && api.shares == old(api.shares)[c.name := shareInfos[c.name]]
      ensures ok ==> shareInfos[c.name] == ShareInfo(false, "", Absent, c.capacity, None)
    {
      var info := ShareInfo(false, "", Absent, c.capacity, None);
      ghost var mid;
      ok, mid := AddShare(api, c.name, info);
      WorkLater(Mine(), old(api.Now()), mid, api.pools, sound);
      if ok {
        ShareAdded(Mine(), mid, c.name, info, api.pools);
        shareInfos := shareInfos[c.name := info];
      }
    }

    /** Writes what the cloud reports into the object's status. */
    method RecordShare(c: CloudShare, status: ShareStatus, ghost sound: bool) returns (ok: bool)
      requires Reading(sound) && (sound ==> (c.name, c.parent) in api.cloudShares)
      requires c.name in shareInfos && status.handle == c.parent && status.phase != Deleted
      modifies this`shareInfos, api`shares, api`unbroken, api`writes
      ensures Reading(sound)
      ensures shareInfos == if ok then old(shareInfos)[c.name := old(shareInfos)[c.name].(status := Some(status))] else old(shareInfos)
      ensures api.reliable && old(c.name in api.shares && api.shares[c.name] == shareInfos[c.name]) ==>
                ok && api.shares == old(api.shares)[c.name := shareInfos[c.name]]
    {
      var base := shareInfos[c.name];
      ghost var mid;
      ok, mid := WriteShare(api, c.name, base, status);
      WorkLater(Mine(), old(api.Now()), mid, api.pools, sound);
      if ok {
        ShareRecorded(Mine(), mid, c, status, api.pools, sound);
        shareInfos := shareInfos[c.name := base.(status := Some(status))];
      }
    }

    /** One turn of createAndUpdateShareInfos. */
    method ObserveShare(c: CloudShare, ghost sound: bool)
      requires Reading(sound) && (sound ==> (c.name, c.parent) in api.cloudShares)
      modifies this`shareInfos, api`shares, api`unbroken, api`writes
      ensures Reading(sound)
      ensures shareInfos == old(shareInfos) || (c.name in shareInfos && shareInfos == old(shareInfos)[c.name := shareInfos[c.name]])
      ensures api.reliable ==>
                && c.name in shareInfos && api.shares == old(api.shares)[c.name := shareInfos[c.name]]
                && (SharePhase(c.state).Some? ==> Reflects(shareInfos[c.name], c))
    {
      var found := GetOrCreateShareInfo(c, sound);
      if !found {
        return;
      }
      var info, phase := shareInfos[c.name], SharePhase(c.state);
      if phase.None?
         || (info.status.Some? && info.Handle() == c.parent && info.status.value.capacity == c.capacity && info.PhaseNow() == phase.value) {
        return;
      }
      var status := ShareStatus(c.parent, c.capacity, phase.value, info.ErrorNow());
      var _ := RecordShare(c, status, sound);
    }

    /**
     * createAndUpdateShareInfos, followed by reading the remaining objects. When every call succeeds and
     * no name is listed twice, each listed share has an object that says what the cloud says.
     */
    method CreateAndUpdateShareInfos(listing: seq<CloudShare>, ghost sound: bool)
      requires Reading(sound) && shareInfos == map[]
      requires sound ==> forall c | c in listing :: (c.name, c.parent) in api.cloudShares
      modifies this`shareInfos, api`shares, api`unbroken, api`writes
      ensures Reading(sound)
      ensures api.reliable ==> shareInfos == api.shares
      ensures api.reliable && OneNameEach(listing) ==> Recorded(listing, |listing|, shareInfos)
    {
      for k := 0 to |listing|
        invariant Reading(sound)
        invariant api.reliable ==> Stored(shareInfos, api.shares)
        invariant api.reliable && OneNameEach(listing) ==> Recorded(listing, k, shareInfos)
      {
        ghost var ls := shareInfos;
        ObserveShare(listing[k], sound);
        if api.reliable && OneNameEach(listing) { RecordedStep(listing, k, ls, shareInfos); }
      }
      ReadOtherShares(sound);
    }

    /** Reads the shares that the cloud does not list. */
    method ReadOtherShares(ghost sound: bool)
      requires Reading(sound)
      modifies this`shareInfos, api`shares, api`unbroken
      ensures Reading(sound) && (api.reliable ==> api.shares == old(api.shares))
      ensures shareInfos == api.shares + old(shareInfos)
    {
      ghost var mid := Pause(api);
      WorkLater(Mine(), old(api.Now()), mid, api.pools, sound);
      OthersRead(Mine(), mid, api.pools, sound);
      shareInfos := api.shares + shareInfos;
    }

    /** Reads the object of a listed instance, or creates it. */
    method GetOrCreateInstanceInfo(c: CloudInstance, ghost sound: bool) returns (ok: bool)
      requires Reading(sound) && c.uri != "" && (sound ==> c.uri in api.cloudInstances)
      modifies this`instanceInfos, api`shares, api`instances, api`unbroken, api`writes
      ensures Reading(sound)
      ensures if ok then c.uri in instanceInfos && instanceInfos == old(instanceInfos)[c.uri := instanceInfos[c.uri]]
                         && api.instances == old(api.instances)[c.uri := instanceInfos[c.uri]]
              else instanceInfos == old(instanceInfos) && api.instances == old(api.instances) && c.uri !in api.instances
      ensures ok && c.uri in old(api.instances) ==> api.instances == old(api.instances)
      ensures ok && c.uri !in old(api.instances) ==> instanceInfos[c.uri] == InstanceInfo(false, 1, c.tag, Absent, c.capacity, None)
      ensures api.reliable ==> ok && api.shares == old(api.shares)
      ensures old(OneFinalizer(api.instances)) ==> OneFinalizer(api.instances)
    {
      if c.uri in api.instances {
        instanceInfos := instanceInfos[c.uri := api.instances[c.uri]];
        return true;
      }
      var info := InstanceInfo(false, 1, c.tag, Absent, c.capacity, None);
      ghost var mid;
      ok, mid := AddInstance(api, c.uri, info);
      WorkLater(Mine(), old(api.Now()), mid, api.pools, sound);
      if ok {
        InstanceWritten(Mine(), mid, c.uri, info, api.pools, sound);
        instanceInfos := instanceInfos[c.uri := info];
      }
    }

    /** Writes a status that lists nothing less than before, and what lives on the instance. */
    method RecordInstance(u: Uri, replacement: InstanceInfo, listing: seq<CloudShare>, ghost sound: bool) returns (ok: bool)
      requires Reading(sound) && u in instanceInfos && replacement == instanceInfos[u].(status := replacement.status)
      requires NamesAdded(instanceInfos[u], replacement, NamesOn(listing, u))
      requires sound ==> AllHeld(listing, api.cloudShares)
      modifies this`instanceInfos, api`shares, api`instances, api`unbroken, api`writes
      ensures Reading(sound)
      ensures instanceInfos == if ok then old(instanceInfos)[u := replacement] else old(instanceInfos)
      ensures api.instances == if ok then old(api.instances)[u := replacement] else old(api.instances)
      ensures api.reliable ==> ok && api.shares == old(api.shares)
    {
      ghost var mid;
      ok, mid := WriteInstance(api, u, instanceInfos[u], replacement);
      WorkLater(Mine(), old(api.Now()), mid, api.pools, sound);
      if ok {
        InstanceRecorded(Mine(), mid, u, replacement, listing, api.pools, sound);
        instanceInfos := instanceInfos[u := replacement];
      }
    }

    /** maybeUpdateInstanceInfoStatus: shares that live on the instance are only ever added to its list. */
    method MaybeUpdateInstanceInfoStatus(c: CloudInstance, listing: seq<CloudShare>, ghost sound: bool) returns (ok: bool)
      requires Reading(sound) && c.uri in instanceInfos && (sound ==> AllHeld(listing, api.cloudShares))
      modifies this`instanceInfos, api`shares, api`instances, api`unbroken, api`writes
      ensures Reading(sound)
      ensures c.uri in instanceInfos && instanceInfos == old(instanceInfos)[c.uri := instanceInfos[c.uri]]
      ensures api.instances == old(api.instances)[c.uri := instanceInfos[c.uri]]
      ensures if ok then ReflectsInstance(instanceInfos[c.uri], c)
                         && NamesAdded(old(instanceInfos)[c.uri], instanceInfos[c.uri], NamesOn(listing, c.uri))
              else instanceInfos == old(instanceInfos)
      ensures instanceInfos[c.uri] == old(instanceInfos)[c.uri] || instanceInfos[c.uri].StatusOrNew().cidr == c.cidr
      ensures api.reliable ==> api.shares == old(api.shares) && (ok <==> InstancePhase(c.state).Some?)
      ensures old(OneFinalizer(api.instances)) ==> OneFinalizer(api.instances)
    {
      var info, phase, on := instanceInfos[c.uri], InstancePhase(c.state), NamesOn(listing, c.uri);
      if phase.None? {
        return false;
      }
      if info.status.Some? && info.status.value.capacity == c.capacity && info.status.value.stepGb == c.stepGb
         && info.status.value.phase == phase.value && forall n | n in on :: n in info.Names() {
        return true;
      }
      var replacement := MergeStatus(info, c, phase.value, on);
      ok := RecordInstance(c.uri, replacement, listing, sound);
    }

    /** The status as the cloud reports it, listing what was listed and what lives there, in any order. */
    method MergeStatus(info: InstanceInfo, c: CloudInstance, phase: Phase, on: seq<Name>) returns (r: InstanceInfo)
      requires InstancePhase(c.state) == Some(phase)
      ensures r == info.(status := r.status) && ReflectsInstance(r, c) && NamesAdded(info, r, on)
      ensures r.StatusOrNew().error == info.StatusOrNew().error && r.StatusOrNew().cidr == c.cidr
    {
      var names := ArbitraryOrder((set n | n in info.Names()) + (set n | n in on));
      r := info.(status := Some(InstanceStatus(names, c.capacity, phase, c.stepGb, c.cidr, info.StatusOrNew().error)));
    }

    /** One turn of createAndUpdateInstanceInfos. */
    method ObserveInstance(c: CloudInstance, listing: seq<CloudShare>, ghost sound: bool)
      requires Reading(sound) && c.uri != "" && (sound ==> c.uri in api.cloudInstances && AllHeld(listing, api.cloudShares))
      modifies this`instanceInfos, api`shares, api`instances, api`unbroken, api`writes
      ensures Reading(sound)
      ensures OnlyAt(c.uri, old(instanceInfos), instanceInfos) && api.instances.Keys <= old(api.instances.Keys) + {c.uri}
      ensures c.uri in api.instances ==> c.uri in instanceInfos
      ensures api.reliable ==> api.shares == old(api.shares) && RecordedInstance(c, listing, instanceInfos)
      ensures old(OneFinalizer(api.instances)) ==> OneFinalizer(api.instances)
    {
      var found := GetOrCreateInstanceInfo(c, sound);
      if found {
        var _ := MaybeUpdateInstanceInfoStatus(c, listing, sound);
      }
    }

    /** maybeRemoveInstanceInfoFinalizer, for an instance the cloud does not list; false when it is not kept. */
    method MaybeRemoveInstanceInfoFinalizer(u: Uri, ghost sound: bool) returns (keep: bool)
      requires Reading(sound) && u in api.instances && u !in instanceInfos && (sound ==> u !in api.cloudInstances)
      modifies this`instanceInfos, api`shares, api`instances, api`unbroken, api`writes
      ensures Reading(sound)
      ensures keep <==> !old(api.instances)[u].deleting || old(api.instances)[u].status.None?
      ensures instanceInfos == if keep then old(instanceInfos)[u := old(api.instances)[u]] else old(instanceInfos)
      ensures api.instances == old(api.instances) || (!keep && api.instances == old(api.instances) - {u})
      ensures api.reliable && !keep && old(api.instances)[u].finalizers == 1 ==> u !in api.instances
      ensures api.reliable ==> api.shares == old(api.shares)
    {
      var info := api.instances[u];
      if !info.deleting || info.status.None? {
        instanceInfos := instanceInfos[u := info];
        return true;
      }
      if info.finalizers != 1 {
        return false;
      }
      var ok;
      ghost var mid;
      ok, mid := ReleaseInstance(api, u, info);
      WorkLater(Mine(), old(api.Now()), mid, api.pools, sound);
      if ok { InstanceReleased(Mine(), mid, u, api.pools, sound); }
      return false;
    }

    /**
     * createAndUpdateInstanceInfos. When every call succeeds and no URI is listed twice, each listed
     * instance has an object that says what the cloud says and lists the shares that live on it.
     */
    method CreateAndUpdateInstanceInfos(hosts: seq<CloudInstance>, listing: seq<CloudShare>, ghost sound: bool)
      requires Reading(sound) && instanceInfos == map[] && (sound ==> AllHeld(listing, api.cloudShares))
      requires forall c | c in hosts :: c.uri != "" && (sound ==> c.uri in api.cloudInstances)
      modifies this`instanceInfos, api`shares, api`instances, api`unbroken, api`writes
      ensures Reading(sound)
      ensures forall c | c in hosts && c.uri in api.instances :: c.uri in instanceInfos
      ensures api.reliable ==> api.shares == old(api.shares)
      ensures api.reliable && OneUriEach(hosts) ==> RecordedInstances(hosts, |hosts|, listing, instanceInfos)
      ensures old(OneFinalizer(api.instances)) ==> OneFinalizer(api.instances)
    {
      for k := 0 to |hosts|
        invariant Reading(sound)
        invariant old(OneFinalizer(api.instances)) ==> OneFinalizer(api.instances)
        invariant Read(hosts, k, api.instances, instanceInfos)
        invariant api.reliable ==> api.shares == old(api.shares)
        invariant api.reliable && OneUriEach(hosts) ==> RecordedInstances(hosts, k, listing, instanceInfos)
      {
        ghost var li, instances := instanceInfos, api.instances;
        ObserveInstance(hosts[k], listing, sound);
        ReadStep(hosts, k, listing, instances, li, api.instances, instanceInfos);
      }
    }

    /** Reads the instances the cloud does not list; those on their way out are let go. */
    method ReadOtherInstances(ghost sound: bool)
      requires Reading(sound)
      requires sound ==> forall u | u in api.cloudInstances :: u in instanceInfos
      modifies this`instanceInfos, api`shares, api`instances, api`unbroken, api`writes
      ensures Reading(sound)
      ensures forall u | u in old(instanceInfos) :: u in instanceInfos && instanceInfos[u] == old(instanceInfos)[u]
      ensures forall u | u in api.instances && !api.instances[u].deleting :: u in instanceInfos
      ensures api.reliable ==> api.shares == old(api.shares) && (old(OneFinalizer(api.instances)) ==> instanceInfos == api.instances)
    {
      ghost var first, stored, exact := instanceInfos, api.instances, api.reliable && OneFinalizer(api.instances);
      var order := ArbitraryOrder(api.instances.Keys - instanceInfos.Keys);
      RestReadStart(first, stored, order, exact);
      for k := 0 to |order|
        invariant Reading(sound) && (api.reliable ==> api.shares == old(api.shares))
        invariant RestRead(first, instanceInfos, stored, api.instances, order, k, exact)
      {
        ghost var li, instances := instanceInfos, api.instances;
        var _ := MaybeRemoveInstanceInfoFinalizer(order[k], sound);
        RestReadStep(first, li, stored, instances, instanceInfos, api.instances, order, k, exact);
      }
      RestReadEnd(first, instanceInfos, stored, api.instances, order, exact);
    }

    /** The start of a round: list the cloud, bring the objects up to date, and read them. */
    method Observe(ghost sound: bool) returns (listing: seq<CloudShare>, ghost hosts: seq<CloudInstance>)
      requires Tidy(api.instances) && "" !in api.cloudInstances && (sound ==> api.Clean())
      modifies this`shareInfos, this`instanceInfos, api`shares, api`instances, api`cloudShares, api`cloudInstances, api`unbroken, api`writes
      ensures Reading(sound)
      ensures "" !in api.cloudInstances
      ensures forall s, u :: (s, u) in api.cloudShares <==> ListsShare(listing, s, u)
      ensures forall u :: u in api.cloudInstances <==> ListsInstance(hosts, u)
      ensures api.cloudShares <= old(api.cloudShares) && api.cloudInstances <= old(api.cloudInstances)
      ensures forall c | c in listing :: c.parent != ""
      ensures api.reliable && old(OneFinalizer(api.instances)) ==> Exact()
      ensures api.reliable && OneNameEach(listing) ==> Recorded(listing, |listing|, shareInfos)
      ensures api.reliable && OneUriEach(hosts) ==> RecordedInstances(hosts, |hosts|, listing, instanceInfos)
    {
      shareInfos, instanceInfos := map[], map[];
      ghost var before := api.Now();
      var found;
      listing, found := api.ListCloud();
      hosts := found;
      if sound { CloudShrinksKeeps(before, api.pools, api.cloudShares, api.cloudInstances); }
      forall c | c in listing ensures (c.name, c.parent) in api.cloudShares {
        assert ListsShare(listing, c.name, c.parent);
      }
      forall c | c in found ensures c.uri in api.cloudInstances {
        assert ListsInstance(hosts, c.uri);
      }
      CreateAndUpdateShareInfos(listing, sound);
      CreateAndUpdateInstanceInfos(found, listing, sound);
      ReadOtherInstances(sound);
    }

    // The end of a round: requests to the cloud.

    /** The copies while requests are sent; `pending` are the shares not dealt with yet. */
    ghost predicate Sending(pending: set<Name>, listing: seq<CloudShare>, sound: bool)
      reads this, api
    {
      Sends(Mine(), api.Now(), pending, listing, api.pools, sound) && (sound ==> api.unbroken)
    }

    /** updateInstanceInfoErr; the copy is left as it was. */
    method UpdateInstanceInfoErr(u: Uri, error: string, ghost pending: set<Name>, ghost listing: seq<CloudShare>, ghost sound: bool)
      requires u in instanceInfos && Sending(pending, listing, sound)
      modifies api`shares, api`instances, api`unbroken, api`writes
      ensures Sending(pending, listing, sound)
      ensures TellsInstance(u, instanceInfos[u], Some(error), old(api.instances), api.instances, api.reliable)
      ensures api.reliable ==> api.shares == old(api.shares)
    {
      var info := instanceInfos[u];
      if EqualFold(info.StatusOrNew().error, error) {
        return;
      }
      var ok;
      ghost var mid;
      ok, mid := WriteInstance(api, u, info, WithError(info, error));
      SendsLater(Mine(), old(api.Now()), mid, pending, listing, api.pools, sound);
      if ok { InstanceErrorWritten(Mine(), mid, u, error, pending, listing, api.pools, sound); }
    }

    /** updateShareInfoErr; the copy is left as it was. */
    method UpdateShareInfoErr(s: Name, error: string, ghost pending: set<Name>, ghost listing: seq<CloudShare>, ghost sound: bool)
      requires s in shareInfos && Sending(pending, listing, sound)
      modifies api`shares, api`unbroken, api`writes
      ensures Sending(pending, listing, sound)
      ensures api.reliable ==> TellsShare(s, shareInfos[s], Some(error), old(api.shares), api.shares)
    {
      var info := shareInfos[s];
      if EqualFold(info.ErrorNow(), error) {
        return;
      }
      var ok;
      ghost var mid;
      ok, mid := WriteShare(api, s, info, ShareWithError(info, error));
      SendsLater(Mine(), old(api.Now()), mid, pending, listing, api.pools, sound);
      if ok { ShareErrorWritten(Mine(), mid, s, error, pending, listing, api.pools, sound); }
    }

    /** Asks the cloud to start an operation that is due. */
    method Ask(op: StartedOp, ghost v: View, ghost pending: set<Name>, ghost sound: bool) returns (error: Option<string>)
      requires Sending(pending, v.listing, sound) && Alike(v.li, instanceInfos) && v.ls == shareInfos && Due(op, v)
      requires op.CreateShare? ==> op.share in pending
      modifies api`shares, api`cloudShares, api`cloudInstances, api`started, api`unbroken
      ensures Sending(if op.CreateShare? then pending - {op.share} else pending, v.listing, sound)
      ensures Served(old(api.started), api.started, {SubjectOf(op)}, v, api.reliable)
      ensures api.reliable ==> error == None && api.shares == old(api.shares)
    {
      var ok;
      ghost var mid;
      ok, mid := Request(api, op);
      SendsLater(Mine(), old(api.Now()), mid, pending, v.listing, api.pools, sound);
      RequestSent(Mine(), mid, op, v, pending, v.listing, api.pools, sound);
      ServedOne(old(api.started), api.started, op, v, api.reliable);
      var message: string := *;
      error := if ok then None else Some(message);
    }

    /** Starts what the instance needs; generating a new instance may fail, which is not reported. */
    method RequestInstance(u: Uri, ops: seq<Op>, ghost v: View, ghost pending: set<Name>, ghost sound: bool) returns (error: Option<string>)
      requires u in instanceInfos && Sending(pending, v.listing, sound) && !Running(u, ops) && v == View(shareInfos, instanceInfos, v.listing, ops)
      modifies api`shares, api`cloudShares, api`cloudInstances, api`started, api`unbroken
      ensures Sending(pending, v.listing, sound)
      ensures Served(old(api.started), api.started, {OfInstance(u)}, v, api.reliable)
      ensures api.reliable ==> error == None && api.shares == old(api.shares)
    {
      var i := instanceInfos[u];
      error := None;
      if i.deleting {
        error := Ask(DeleteInstance(u), v, pending, sound);
      } else if !InstanceUp(i) {
        var failed := api.Fails();
        if failed {
          ServedFewer(api.started, OfInstance(u), v);
        } else {
          error := Ask(CreateInstance(u, i.capacity), v, pending, sound);
        }
      } else if i.status.value.capacity != 0 && i.capacity != i.status.value.capacity {
        error := Ask(ResizeInstance(u, i.capacity), v, pending, sound);
      } else {
        InstanceNotDue(u, v);
      }
    }

    /** One turn of sendInstanceRequests. */
    method SendInstanceRequest(u: Uri, ops: seq<Op>, ghost v: View, ghost pending: set<Name>, ghost sound: bool)
      requires u in instanceInfos && Sending(pending, v.listing, sound) && v == View(shareInfos, instanceInfos, v.listing, ops)
      modifies api`shares, api`instances, api`cloudShares, api`cloudInstances, api`started, api`unbroken, api`writes
      ensures Sending(pending, v.listing, sound)
      ensures Served(old(api.started), api.started, {OfInstance(u)}, v, api.reliable)
      ensures api.reliable ==> api.shares == old(api.shares)
      ensures TellsInstance(u, instanceInfos[u], InstanceError(u, instanceInfos[u], ops), old(api.instances), api.instances, api.reliable)
    {
      var i := instanceInfos[u];
      if SettledInstance(i) {
        InstanceNotDue(u, v);
        TellsNothing(u, i, api.instances, api.reliable);
      } else {
        RequestUnsettled(u, ops, v, pending, sound);
      }
    }

    method RequestUnsettled(u: Uri, ops: seq<Op>, ghost v: View, ghost pending: set<Name>, ghost sound: bool)
      requires u in instanceInfos && Sending(pending, v.listing, sound) && v == View(shareInfos, instanceInfos, v.listing, ops)
      modifies api`shares, api`instances, api`cloudShares, api`cloudInstances, api`started, api`unbroken, api`writes
      ensures Sending(pending, v.listing, sound)
      ensures Served(old(api.started), api.started, {OfInstance(u)}, v, api.reliable)
      ensures TellsInstance(u, instanceInfos[u], OpError(u, ops), old(api.instances), api.instances, api.reliable)
      ensures api.reliable ==> api.shares == old(api.shares)
    {
      var running, error := RunningOp(u, ops);
      if error.Some? {
        UpdateInstanceInfoErr(u, error.value, pending, v.listing, sound);
      } else {
        TellsNothing(u, instanceInfos[u], api.instances, api.reliable);
      }
      ghost var first, between := error, api.instances;
      if running {
        InstanceNotDue(u, v);
      } else {
        error := RequestInstance(u, ops, v, pending, sound);
      }
      if error.Some? {
        UpdateInstanceInfoErr(u, error.value, pending, v.listing, sound);
      }
      TellsTwice(u, instanceInfos[u], first, error, old(api.instances), between, api.instances, api.reliable);
    }

    /**
     * sendInstanceRequests over all instances, in any order: what is due for them is started once, and
     * nothing else; an instance for which there is no news is left as it was.
     */
    method SendInstanceRequests(ops: seq<Op>, ghost v: View, ghost pending: set<Name>, ghost sound: bool) returns (ghost order: seq<Uri>)
      requires Sending(pending, v.listing, sound) && v == View(shareInfos, instanceInfos, v.listing, ops)
      modifies api`shares, api`instances, api`cloudShares, api`cloudInstances, api`started, api`unbroken, api`writes
      ensures Sending(pending, v.listing, sound)
      ensures Served(old(api.started), api.started, InstanceSubjects(v), v, api.reliable)
      ensures api.reliable ==> api.shares == old(api.shares)
      ensures StillStand(old(api.instances), api.instances)
      ensures (forall u :: u in order <==> u in instanceInfos) && (api.reliable ==> Told(v, order, old(api.instances), api.instances))
    {
      ghost var shares, stored := api.shares, api.instances;
      var turns := ArbitraryOrder(instanceInfos.Keys);
      order := turns;
      ServedNone(api.started, v, api.reliable);
      for k := 0 to |turns|
        invariant Asking(turns, k, pending, v, old(api.started), shares, stored, sound)
      {
        InstanceNext(turns, k, ops, pending, v, old(api.started), shares, stored, sound);
      }
      TakeAll(turns);
      AllInstancesServed(old(api.started), api.started, order, v, api.reliable);
    }

    /** The instances up to the k-th have had their turn. */
    ghost predicate Asking(order: seq<Uri>, k: nat, pending: set<Name>, v: View, started: seq<StartedOp>, shares: map<Name, ShareInfo>,
                           stored: map<Uri, InstanceInfo>, sound: bool)
      reads this, api
    {
      && k <= |order| && Distinct(order) && (forall u | u in order :: u in instanceInfos) && v.ls == shareInfos && v.li == instanceInfos
      && Sending(pending, v.listing, sound) && StillStand(stored, api.instances)
      && Served(started, api.started, set u | u in order[..k] :: OfInstance(u), v, api.reliable)
      && (api.reliable ==> api.shares == shares && Told(v, order[..k], stored, api.instances))
    }

    method InstanceNext(order: seq<Uri>, k: nat, ops: seq<Op>, ghost pending: set<Name>, ghost v: View, ghost started: seq<StartedOp>,
                        ghost shares: map<Name, ShareInfo>, ghost stored: map<Uri, InstanceInfo>, ghost sound: bool)
      requires k < |order| && Asking(order, k, pending, v, started, shares, stored, sound) && v.ops == ops
      modifies api`shares, api`instances, api`cloudShares, api`cloudInstances, api`started, api`unbroken, api`writes
      ensures Asking(order, k + 1, pending, v, started, shares, stored, sound)
    {
      ghost var before, instances := api.started, api.instances;
      TakeNext(order, k);
      assert order[k] in order;
      SendInstanceRequest(order[k], ops, v, pending, sound);
      InstanceServed(started, before, api.started, order, k, v, api.reliable);
      ToldNext(v, order[..k], order[k], stored, instances, api.instances, api.reliable);
    }

    /**
     * maybeMarkShareInfoStatusDeleted, for a share the cloud does not list where it points: the instance
     * drops it first, and only then is it marked.
     */
    method MaybeMarkShareInfoStatusDeleted(s: Name, ghost pending: set<Name>, ghost listing: seq<CloudShare>, ghost sound: bool)
      returns (ok: bool)
      requires Sending(pending, listing, sound) && s in pending && s in shareInfos && IsGone(s, shareInfos[s], listing)
      modifies this`instanceInfos, api`shares, api`instances, api`unbroken, api`writes
      ensures Sending(pending - {s}, listing, sound)
      ensures var h := shareInfos[s].Handle();
              ok ==> && h in instanceInfos && s !in instanceInfos[h].Names()
                     && s in api.shares && api.shares[s] == shareInfos[s].WithPhase(Deleted)
      ensures Alike(old(instanceInfos), instanceInfos) && StillStand(old(api.instances), api.instances)
      ensures api.reliable && s in old(api.shares) && old(api.shares)[s] == shareInfos[s] ==>
                MarkTurn(s, shareInfos[s], listing, old(Copies(api.shares, api.instances)), Copies(api.shares, api.instances),
                         old(instanceInfos), instanceInfos)
    {
      var h := shareInfos[s].Handle();
      ok := h in instanceInfos;
      var clone;
      if ok {
        clone, ok := UnassignDeleted(s, pending, listing, sound);
      }
      if ok {
        ok := MarkDeleted(s, pending, listing, sound);
      }
      FewerPending(Mine(), api.Now(), pending, pending - {s}, listing, api.pools, sound);
      if ok {
        CloneSends(Mine(), api.Now(), h, s, pending - {s}, listing, api.pools, sound);
        instanceInfos := instanceInfos[h := clone];
      } else {
        assert Alike(instanceInfos, instanceInfos);
      }
    }

    /** The stored instance drops the share, if it lists it. */
    method UnassignDeleted(s: Name, ghost pending: set<Name>, ghost listing: seq<CloudShare>, ghost sound: bool)
      returns (clone: InstanceInfo, ok: bool)
      requires Sending(pending, listing, sound) && s in pending && s in shareInfos && IsGone(s, shareInfos[s], listing)
      requires shareInfos[s].Handle() in instanceInfos
      modifies api`shares, api`instances, api`unbroken, api`writes
      ensures Sending(pending, listing, sound)
      ensures clone == WithoutShare(instanceInfos[shareInfos[s].Handle()], s) && StillStand(old(api.instances), api.instances)
      ensures var h := shareInfos[s].Handle();
              api.reliable ==>
                && api.shares == old(api.shares) && (ok <==> (s in instanceInfos[h].Names() ==> UpToDate(h, instanceInfos, old(api.instances))))
                && api.instances == if ok && s in instanceInfos[h].Names() then old(api.instances)[h := clone] else old(api.instances)
    {
      var h := shareInfos[s].Handle();
      var updated;
      clone, updated := RemoveShareFromInstanceInfo(instanceInfos[h], s);
      ok := true;
      if updated {
        ok := DropDeleted(h, s, clone, pending, listing, sound);
      }
    }

    method DropDeleted(h: Uri, s: Name, clone: InstanceInfo, ghost pending: set<Name>, ghost listing: seq<CloudShare>, ghost sound: bool)
      returns (ok: bool)
      requires Sending(pending, listing, sound) && s in pending && s in shareInfos && h in instanceInfos && h == shareInfos[s].Handle()
      requires IsGone(s, shareInfos[s], listing) && clone == instanceInfos[h].WithNames(Without(instanceInfos[h].Names(), s))
      modifies api`shares, api`instances, api`unbroken, api`writes
      ensures Sending(pending, listing, sound)
      ensures ok ==> UpToDate(h, instanceInfos, old(api.instances))
      ensures StillStand(old(api.instances), api.instances)
      ensures api.reliable ==> api.shares == old(api.shares) && (UpToDate(h, instanceInfos, old(api.instances)) ==> ok)
      ensures api.instances == if ok then old(api.instances)[h := clone] else old(api.instances)
    {
      ghost var mid;
      ok, mid := WriteInstance(api, h, instanceInfos[h], clone);
      SendsLater(Mine(), old(api.Now()), mid, pending, listing, api.pools, sound);
      if ok { DeletedDropped(Mine(), mid, s, pending, listing, api.pools, sound); }
    }

    method MarkDeleted(s: Name, ghost pending: set<Name>, ghost listing: seq<CloudShare>, ghost sound: bool) returns (ok: bool)
      requires Sending(pending, listing, sound) && s in pending && s in shareInfos && IsGone(s, shareInfos[s], listing)
      modifies api`shares, api`unbroken, api`writes
      ensures Sending(pending - {s}, listing, sound)
      ensures ok ==> s in api.shares && api.shares[s] == shareInfos[s].WithPhase(Deleted)
      ensures api.reliable && s in old(api.shares) && old(api.shares)[s] == shareInfos[s] ==>
                ok && api.shares == old(api.shares)[s := shareInfos[s].WithPhase(Deleted)]
    {
      ghost var mid;
      ok, mid := WriteShare(api, s, shareInfos[s], shareInfos[s].WithPhase(Deleted).status.value);
      SendsLater(Mine(), old(api.Now()), mid, pending, listing, api.pools, sound);
      if ok { DeletedMarked(Mine(), mid, s, pending, listing, api.pools, sound); }
    }

    /** Starts what the share needs on its ready host. */
    method StartShareOp(s: Name, ops: seq<Op>, ghost v: View, ghost pending: set<Name>, ghost sound: bool) returns (error: Option<string>)
      requires Sending(pending, v.listing, sound) && s in pending && s in shareInfos && Alike(v.li, instanceInfos) && v.ls == shareInfos && v.ops == ops
      requires NeedsHost(shareInfos[s], instanceInfos) && !Running(ShareTarget(shareInfos[s].Handle(), s), ops)
      requires shareInfos[s].deleting ==> shareInfos[s].PhaseNow() != Deleted && ListsShare(v.listing, s, shareInfos[s].Handle())
      modifies api`shares, api`cloudShares, api`cloudInstances, api`started, api`unbroken
      ensures Sending(pending - {s}, v.listing, sound)
      ensures Served(old(api.started), api.started, {OfShare(s)}, v, api.reliable)
      ensures api.reliable ==> error == None && api.shares == old(api.shares)
      ensures !Startable(shareInfos[s]) ==> error == None
    {
      var share := shareInfos[s];
      var u := share.Handle();
      error := None;
      assert HostIsReady(v.li[u]);
      if share.deleting {
        error := Ask(DeleteShare(s, u), v, pending, sound);
      } else if share.PhaseNow() != Ready {
        error := Ask(CreateShare(s, u, share.capacity), v, pending, sound);
      } else if share.status.value.capacity != 0 {
        error := Ask(ResizeShare(s, u, share.capacity), v, pending, sound);
      } else {
        ShareNotDue(s, v, instanceInfos);
      }
      FewerPending(Mine(), api.Now(), pending, pending - {s}, v.listing, api.pools, sound);
    }

    /** Starts what the share needs on its ready host, unless an operation on it is running. */
    method RequestShare(s: Name, ops: seq<Op>, ghost v: View, ghost pending: set<Name>, ghost sound: bool)
      requires Sending(pending, v.listing, sound) && s in pending && s in shareInfos && Alike(v.li, instanceInfos) && v.ls == shareInfos && v.ops == ops
      requires NeedsHost(shareInfos[s], instanceInfos)
      requires shareInfos[s].deleting ==> shareInfos[s].PhaseNow() != Deleted && ListsShare(v.listing, s, shareInfos[s].Handle())
      modifies api`shares, api`cloudShares, api`cloudInstances, api`started, api`unbroken, api`writes
      ensures Sending(pending - {s}, v.listing, sound)
      ensures Served(old(api.started), api.started, {OfShare(s)}, v, api.reliable)
      ensures api.reliable ==> TellsShare(s, shareInfos[s], OpError(ShareTarget(shareInfos[s].Handle(), s), ops), old(api.shares), api.shares)
    {
      var running, error := RunningOp(ShareTarget(shareInfos[s].Handle(), s), ops);
      if error.Some? {
        UpdateShareInfoErr(s, error.value, pending, v.listing, sound);
      }
      ghost var first, shares := error, api.shares;
      if running {
        ShareNotDue(s, v, instanceInfos);
      } else {
        var failed := StartShareOp(s, ops, v, pending, sound);
        error := if Startable(shareInfos[s]) then failed else error;
      }
      FewerPending(Mine(), api.Now(), pending, pending - {s}, v.listing, api.pools, sound);
      if error.Some? {
        UpdateShareInfoErr(s, error.value, pending - {s}, v.listing, sound);
      }
      if api.reliable { TellsShareTwice(s, shareInfos[s], first, old(api.shares), shares, api.shares); }
    }

    /** One turn of sendShareRequests. */
    method SendShareRequest(s: Name, listing: seq<CloudShare>, ops: seq<Op>, ghost v: View, ghost pending: set<Name>, ghost sound: bool)
      requires Sending(pending, listing, sound) && s in pending && s in shareInfos && Alike(v.li, instanceInfos)
      requires v == View(shareInfos, v.li, listing, ops)
      modifies this`instanceInfos, api`shares, api`instances, api`cloudShares, api`cloudInstances, api`started, api`unbroken, api`writes
      ensures Sending(pending - {s}, listing, sound) && Alike(v.li, instanceInfos) && StillStand(old(api.instances), api.instances)
      ensures Served(old(api.started), api.started, {OfShare(s)}, v, api.reliable)
      ensures api.reliable && s in old(api.shares) && old(api.shares)[s] == shareInfos[s] ==>
                ShareTurn(s, v, old(Copies(api.shares, api.instances)), Copies(api.shares, api.instances), old(instanceInfos), instanceInfos)
    {
      var share := shareInfos[s];
      if share.deleting && (share.status.None? || share.PhaseNow() == Deleted) {
        ShareNotDue(s, v, instanceInfos);
        FewerPending(Mine(), api.Now(), pending, pending - {s}, listing, api.pools, sound);
      } else if share.deleting && !ListsShare(listing, s, share.Handle()) {
        ShareNotDue(s, v, instanceInfos);
        ghost var li := instanceInfos;
        var _ := MaybeMarkShareInfoStatusDeleted(s, pending, listing, sound);
        AlikeTransitive(v.li, li, instanceInfos);
      } else {
        SendToHost(s, ops, v, pending, sound);
      }
    }

    /** A share that the cloud holds, or that is to be created: nothing is asked for until its host is ready. */
    method SendToHost(s: Name, ops: seq<Op>, ghost v: View, ghost pending: set<Name>, ghost sound: bool)
      requires Sending(pending, v.listing, sound) && s in pending && s in shareInfos && Alike(v.li, instanceInfos) && v.ls == shareInfos && v.ops == ops
      requires var a := shareInfos[s];
               a.deleting ==> a.status.Some? && a.PhaseNow() != Deleted && ListsShare(v.listing, s, a.Handle())
      modifies api`shares, api`cloudShares, api`cloudInstances, api`started, api`unbroken, api`writes
      ensures Sending(pending - {s}, v.listing, sound)
      ensures Served(old(api.started), api.started, {OfShare(s)}, v, api.reliable)
      ensures api.reliable ==> TellsShare(s, shareInfos[s], ShareError(s, v), old(api.shares), api.shares)
    {
      var share := shareInfos[s];
      FewerPending(Mine(), api.Now(), pending, pending - {s}, v.listing, api.pools, sound);
      if share.Handle() == "" || (!share.deleting && share.capacity == share.status.value.capacity) || share.Handle() !in instanceInfos {
        ShareNotDue(s, v, instanceInfos);
        return;
      }
      var host := instanceInfos[share.Handle()];
      if HostIsReady(host) {
        RequestShare(s, ops, v, pending, sound);
      } else {
        ShareNotDue(s, v, instanceInfos);
        if host.StatusOrNew().error != "" {
          UpdateShareInfoErr(s, host.StatusOrNew().error, pending - {s}, v.listing, sound);
        }
      }
    }

    /**
     * sendShareRequests over all shares, in any order: what is due for them is started once, and nothing
     * else. As long as no call fails, of shares stored as they were copied those that are gone are marked.
     */
    method SendShareRequests(listing: seq<CloudShare>, ops: seq<Op>, ghost v: View, ghost sound: bool)
      requires Sending(shareInfos.Keys, listing, sound) && v == View(shareInfos, instanceInfos, listing, ops)
      modifies this`instanceInfos, api`shares, api`instances, api`cloudShares, api`cloudInstances, api`started, api`unbroken, api`writes
      ensures sound ==> Sound()
      ensures Known(instanceInfos, api.instances) && Alike(old(instanceInfos), instanceInfos) && StillStand(old(api.instances), api.instances)
      ensures Served(old(api.started), api.started, ShareSubjects(v), v, api.reliable)
      ensures api.reliable && old(Stored(shareInfos, api.shares)) ==>
                && (forall s | s in shareInfos :: ShareEnded(s, v, old(api.instances), api.shares))
                && forall u | u in v.li :: InstanceKept(u, v.li, old(api.instances), instanceInfos, api.instances)
    {
      ghost var pending, stored, exact := shareInfos.Keys, Copies(api.shares, api.instances), api.reliable && Stored(shareInfos, api.shares);
      var order := ArbitraryOrder(shareInfos.Keys);
      ServedNone(api.started, v, api.reliable);
      if exact { SharesEndedStart(v, order, stored); }
      for k := 0 to |order|
        invariant Turning(order, k, pending, v, old(api.started), stored, exact, sound)
      {
        ShareNext(order, k, listing, ops, pending, v, old(api.started), stored, exact, sound);
        pending := pending - {order[k]};
      }
      AllSharesServed(old(api.started), api.started, order, v, api.reliable);
      if exact { AllSharesEnded(v, order, stored, Copies(api.shares, api.instances), instanceInfos); }
    }

    /** The shares up to the k-th have had their turn. */
    ghost predicate Turning(order: seq<Name>, k: nat, pending: set<Name>, v: View, started: seq<StartedOp>, stored: Copies, exact: bool, sound: bool)
      reads this, api
    {
      && k <= |order| && Distinct(order) && (forall s | s in order :: s in shareInfos) && v.ls == shareInfos
      && Sending(pending, v.listing, sound) && Alike(v.li, instanceInfos) && StillStand(stored.li, api.instances)
      && (forall j | k <= j < |order| :: order[j] in pending)
      && Served(started, api.started, set s | s in order[..k] :: OfShare(s), v, api.reliable)
      && (exact ==> api.reliable && SharesEnded(v, order, k, stored, Copies(api.shares, api.instances), instanceInfos))
    }

    method ShareNext(order: seq<Name>, k: nat, listing: seq<CloudShare>, ops: seq<Op>, ghost pending: set<Name>, ghost v: View,
                     ghost started: seq<StartedOp>, ghost stored: Copies, ghost exact: bool, ghost sound: bool)
      requires k < |order| && Turning(order, k, pending, v, started, stored, exact, sound) && v == View(shareInfos, v.li, listing, ops)
      modifies this`instanceInfos, api`shares, api`instances, api`cloudShares, api`cloudInstances, api`started, api`unbroken, api`writes
      ensures Turning(order, k + 1, pending - {order[k]}, v, started, stored, exact, sound)
    {
      ghost var before, now, li := api.started, Copies(api.shares, api.instances), instanceInfos;
      TakeNext(order, k);
      assert order[k] in order;
      SendShareRequest(order[k], listing, ops, v, pending, sound);
      StillStandTransitive(stored.li, now.li, api.instances);
      ShareServed(started, before, api.started, order, k, v, api.reliable);
      if exact { SharesEndedNext(v, order, k, stored, now, li, Copies(api.shares, api.instances), instanceInfos); }
    }

    /**
     * One round. The invariant holds in every state on the way. `v` is what the round goes by when requests
     * are sent, `stuck` the instances that were refused the capacity they need. No operation is started but
     * those due, and none twice. A share is created or resized only where it fits, and an instance is deleted
     * only when it hosts nothing.
     *
     * When every call succeeds, what the cloud lists has been recorded and every live share whose pool has a
     * StorageClass has an instance, each operation that is due is started, a share that is gone is marked
     * deleted, and instances are marked and sized as they should be.
     */
    method Round(ops: seq<Op>) returns (ghost v: View, ghost hosts: seq<CloudInstance>, ghost stuck: set<Uri>)
      requires api.Clean()
      modifies this, api`shares, api`instances, api`cloudShares, api`cloudInstances, api`started, api`unbroken, api`writes
      ensures api.Clean() && v.ops == ops
      ensures AllHeld(v.listing, old(api.cloudShares)) && forall c | c in hosts :: c.uri in old(api.cloudInstances)
      ensures Sent(old(api.started), api.started, v, api.reliable) && AllRefused(stuck, v.li, 0, refused)
      ensures SharesFit(old(api.started), api.started, v, stuck, api.pools)
      ensures DeletedAreEmpty(old(api.started), api.started, api.Now())
      ensures api.reliable && old(OneFinalizer(api.instances)) ==>
                Prepared(v, hosts, api.pools) && SharesAfterRound(v, api.shares) && AllAfterRound(v, api.instances)
    {
      var listing;
      ghost var condemned;
      v, listing, hosts, condemned, stuck := Prepare(ops);
      SendRequests(listing, ops, v, condemned, stuck);
    }

    /** The first half of a round: observe, then assign. */
    method Prepare(ghost ops: seq<Op>)
      returns (ghost v: View, listing: seq<CloudShare>, ghost hosts: seq<CloudInstance>, ghost condemned: set<Uri>, ghost stuck: set<Uri>)
      requires api.Clean()
      modifies this, api`shares, api`instances, api`cloudShares, api`cloudInstances, api`unbroken, api`writes
      ensures v == View(shareInfos, instanceInfos, listing, ops)
      ensures AllHeld(listing, old(api.cloudShares)) && forall c | c in hosts :: c.uri in old(api.cloudInstances)
      ensures Sending(shareInfos.Keys, listing, true) && HostsListed(shareInfos, instanceInfos, api.pools)
      ensures AllProvided(instanceInfos, shareInfos, stuck) && AllRefused(stuck, instanceInfos, 0, refused)
      ensures api.reliable && old(OneFinalizer(api.instances)) ==>
                Prepared(v, hosts, api.pools) && ReadyToSend(v, condemned, api.shares, api.instances)
    {
      listing, hosts := Observe(true);
      ghost var exact, before := api.reliable && Exact(), Mine();
      ghost var visited;
      visited, condemned, stuck := AssignSharesToInstances(true, exact);
      v := View(shareInfos, instanceInfos, listing, ops);
      WorkSends(shareInfos, instanceInfos, condemned, api.Now(), listing, api.pools);
      if exact { AssignedIsPrepared(before, v, hosts, condemned, api.Now(), api.pools); }
    }

    /** The second half of a round. */
    method SendRequests(listing: seq<CloudShare>, ops: seq<Op>, ghost v: View, ghost condemned: set<Uri>, ghost stuck: set<Uri>)
      requires Sending(shareInfos.Keys, listing, true) && AllProvided(instanceInfos, shareInfos, stuck)
      requires HostsListed(shareInfos, instanceInfos, api.pools) && v == View(shareInfos, instanceInfos, listing, ops)
      modifies this`instanceInfos, api`shares, api`instances, api`cloudShares, api`cloudInstances, api`started, api`unbroken, api`writes
      ensures api.Clean() && Sent(old(api.started), api.started, v, api.reliable)
      ensures SharesFit(old(api.started), api.started, v, stuck, api.pools)
      ensures DeletedAreEmpty(old(api.started), api.started, api.Now())
      ensures api.reliable && old(ReadyToSend(v, condemned, api.shares, api.instances)) ==>
                SharesAfterRound(v, api.shares) && AllAfterRound(v, api.instances)
    {
      ghost var started, stored, exact := api.started, api.instances, api.reliable && ReadyToSend(v, condemned, api.shares, api.instances);
      ghost var order := SendInstanceRequests(ops, v, shareInfos.Keys, true);
      ghost var between, instances := api.started, api.instances;
      SendShareRequests(listing, ops, v, true);
      AllServed(started, between, api.started, v, api.reliable);
      ShareOpsFit(started, api.started, v, api.reliable, stuck, api.pools);
      DeletedHostNothing(started, api.started, v, api.reliable, api.Now(), api.pools, instanceInfos);
      if exact { RoundEnds(v, condemned, stored, instances, Copies(api.shares, api.instances), instanceInfos, order); }
    }
  }

  /**
   * Any number of rounds of any number of processes, with the driver's calls in between and within: the
   * invariant holds in every state on the way, so also in whatever state a process stops.
   */
  method Run(api: Store)
    requires api.Clean()
    modifies api
    ensures api.Clean()
  {
    var rounds: nat := *;
    while rounds > 0
      invariant api.Clean()
    {
      Interleave(api);
      var process := new Reconciler(api);
      var ops: seq<Op> := *;
      ghost var v, hosts, stuck := process.Round(ops);
      rounds := rounds - 1;
    }
  }

  /** From an empty store on. */
  method RunFromScratch(pools: Pools, reliable: bool) returns (api: Store)
    ensures fresh(api) && api.Clean() && api.pools == pools
  {
    api := new Store(pools, reliable);
    Run(api);
  }
}
