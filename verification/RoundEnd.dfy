/**
 * What a round leaves of the objects, as long as no call fails: which shares are marked deleted, and what
 * may have become of the instances.
 */
module RoundEnd {
  import opened Wrappers
  import opened Objects
  import opened Capacity
  import opened ApiServer
  import opened PointerRepair
  import opened Placement
  import opened Sizing
  import opened RepairRun
  import opened Upkeep
  import opened Observation
  import opened Requests

  /**
   * The error there is to tell of a share that is not gone: of its host, if that is not ready to serve it, or
   * of the operations on it. There is none of a share that has no host or wants nothing.
   */
  ghost function ShareError(s: Name, v: View): Option<string>
    requires s in v.ls
  {
    var a := v.ls[s];
    if a.status.None? || a.status.value.handle == "" || a.status.value.handle !in v.li then None
    else if if a.deleting then a.status.value.phase == Deleted else a.capacity == a.status.value.capacity then None
    else
      var h := a.status.value.handle;
      var host := v.li[h];
      if host.status.None? then None
      else if host.status.value.phase == Ready && host.status.value.capacity >= host.capacity then OpError(h + "/shares/" + s, v.ops)
      else if host.status.value.error != "" then Some(host.status.value.error)
      else None
  }

  /** The error there is to tell of an instance, unless there is nothing to ask for. */
  ghost function InstanceError(u: Uri, i: InstanceInfo, ops: seq<Op>): Option<string> {
    if !i.deleting && i.status.Some? && i.capacity == i.status.value.capacity
       && (i.status.value.phase == Ready || i.status.value.phase == Updating)
    then None
    else OpError(u, ops)
  }

  /** The copied instance is the stored one. */
  ghost predicate UpToDate(u: Uri, li: map<Uri, InstanceInfo>, instances: map<Uri, InstanceInfo>) {
    u in li && u in instances && instances[u] == li[u]
  }

  /** The share is gone, and its instance can drop it: it does not list it, or has not changed since it was copied. */
  ghost predicate MarkedOnceGone(s: Name, a: ShareInfo, listing: seq<CloudShare>, li: map<Uri, InstanceInfo>, instances: map<Uri, InstanceInfo>) {
    IsGone(s, a, listing) && a.Handle() in li && (s in li[a.Handle()].Names() ==> UpToDate(a.Handle(), li, instances))
  }

  /** What one turn leaves of the objects, for a share that is gone and is stored as it was copied. */
  ghost predicate MarkTurn(s: Name, a: ShareInfo, listing: seq<CloudShare>, c: Copies, c': Copies, li: map<Uri, InstanceInfo>, li': map<Uri, InstanceInfo>) {
    if MarkedOnceGone(s, a, listing, li, c.li) then
      && c'.ls == c.ls[s := a.WithPhase(Deleted)]
      && var h := a.Handle();
      && li' == li[h := WithoutShare(li[h], s)]
      && c'.li == if s in li[h].Names() then c.li[h := WithoutShare(li[h], s)] else c.li
    else
      c' == c && li' == li
  }

  /** The same for any share that is stored as it was copied. */
  ghost predicate ShareTurn(s: Name, v: View, c: Copies, c': Copies, li: map<Uri, InstanceInfo>, li': map<Uri, InstanceInfo>)
    requires s in v.ls
  {
    if IsGone(s, v.ls[s], v.listing) then MarkTurn(s, v.ls[s], v.listing, c, c', li, li')
    else li' == li && c'.li == c.li && c'.ls == c.ls[s := TellShare(v.ls[s], ShareError(s, v))]
  }

  /** A share that is gone is marked if it can be dropped, and of any other the error is told. */
  ghost predicate ShareEnded(s: Name, v: View, instances: map<Uri, InstanceInfo>, shares: map<Name, ShareInfo>)
    requires s in v.ls
  {
    && s in shares
    && shares[s] == if MarkedOnceGone(s, v.ls[s], v.listing, v.li, instances) then v.ls[s].WithPhase(Deleted)
                    else if IsGone(s, v.ls[s], v.listing) then v.ls[s]
                    else TellShare(v.ls[s], ShareError(s, v))
  }

  /** An instance that was up to date stays so and may have lost names; any other is as it was. */
  ghost predicate InstanceKept(u: Uri, first: map<Uri, InstanceInfo>, stored: map<Uri, InstanceInfo>, li: map<Uri, InstanceInfo>,
                               instances: map<Uri, InstanceInfo>) {
    && u in first && u in li
    && (UpToDate(u, first, stored) <==> UpToDate(u, li, instances))
    && if UpToDate(u, first, stored)
       then StillStands(first[u], li[u]) && li[u].StatusOrNew().error == first[u].StatusOrNew().error
       else li[u] == first[u] && (u in stored ==> u in instances && instances[u] == stored[u])
  }

  /** The first k turns: `stored` are the objects as they were before them. */
  ghost predicate SharesEnded(v: View, order: seq<Name>, k: nat, stored: Copies, now: Copies, li: map<Uri, InstanceInfo>)
    requires k <= |order|
  {
    && li.Keys == v.li.Keys
    && (forall j | k <= j < |order| :: order[j] in v.ls && order[j] in now.ls && now.ls[order[j]] == v.ls[order[j]])
    && (forall u | u in v.li :: InstanceKept(u, v.li, stored.li, li, now.li))
    && forall j | 0 <= j < k :: order[j] in v.ls && ShareEnded(order[j], v, stored.li, now.ls)
  }

  lemma SharesEndedNext(v: View, order: seq<Name>, k: nat, stored: Copies, now: Copies, li: map<Uri, InstanceInfo>,
                        now': Copies, li': map<Uri, InstanceInfo>)
    requires Distinct(order) && k < |order| && SharesEnded(v, order, k, stored, now, li)
    requires ShareTurn(order[k], v, now, now', li, li')
    ensures SharesEnded(v, order, k + 1, stored, now', li')
  {
    var s := order[k];
    var a := v.ls[s];
    assert a.Handle() in v.li ==> InstanceKept(a.Handle(), v.li, stored.li, li, now.li);
    forall u | u in v.li ensures InstanceKept(u, v.li, stored.li, li', now'.li) {
      InstanceKeptNext(s, v, u, stored, now, li, now', li');
    }
    OneMoreEnded(v, order, k, stored, now, li, now', li');
  }

  lemma OneMoreEnded(v: View, order: seq<Name>, k: nat, stored: Copies, now: Copies, li: map<Uri, InstanceInfo>,
                     now': Copies, li': map<Uri, InstanceInfo>)
    requires Distinct(order) && k < |order| && order[k] in v.ls && ShareTurn(order[k], v, now, now', li, li')
    requires forall j | 0 <= j < k :: order[j] in v.ls && ShareEnded(order[j], v, stored.li, now.ls)
    requires v.ls[order[k]].Handle() in v.li ==> InstanceKept(v.ls[order[k]].Handle(), v.li, stored.li, li, now.li)
    requires li.Keys == v.li.Keys && order[k] in now.ls && now.ls[order[k]] == v.ls[order[k]]
    ensures forall j | 0 <= j < k + 1 :: order[j] in v.ls && ShareEnded(order[j], v, stored.li, now'.ls)
  {
    forall j | 0 <= j < k ensures ShareEnded(order[j], v, stored.li, now'.ls) {
      assert ShareEnded(order[j], v, stored.li, now.ls);
    }
  }

  lemma InstanceKeptNext(s: Name, v: View, u: Uri, stored: Copies, now: Copies, li: map<Uri, InstanceInfo>,
                         now': Copies, li': map<Uri, InstanceInfo>)
    requires s in v.ls && InstanceKept(u, v.li, stored.li, li, now.li) && ShareTurn(s, v, now, now', li, li')
    ensures InstanceKept(u, v.li, stored.li, li', now'.li)
  {
  }

  /** Of a share that is as copied the error is told, if it has not been told already. */
  ghost predicate TellsShare(s: Name, a: ShareInfo, error: Option<string>, before: map<Name, ShareInfo>, after: map<Name, ShareInfo>) {
    s in before && (before[s] == a || before[s] == TellShare(a, error)) ==> after == before[s := TellShare(a, error)]
  }

  lemma TellsShareTwice(s: Name, a: ShareInfo, error: Option<string>, x: map<Name, ShareInfo>, y: map<Name, ShareInfo>, z: map<Name, ShareInfo>)
    requires (TellsShare(s, a, error, x, y) || (error.None? && y == x)) && (TellsShare(s, a, error, y, z) || z == y)
    ensures TellsShare(s, a, error, x, z)
  {
  }

  lemma AllSharesEnded(v: View, order: seq<Name>, stored: Copies, now: Copies, li: map<Uri, InstanceInfo>)
    requires (forall s :: s in order <==> s in v.ls) && SharesEnded(v, order, |order|, stored, now, li)
    ensures forall s | s in v.ls :: ShareEnded(s, v, stored.li, now.ls)
    ensures forall u | u in v.li :: InstanceKept(u, v.li, stored.li, li, now.li)
  {
    forall s | s in v.ls ensures ShareEnded(s, v, stored.li, now.ls) {
      var j :| 0 <= j < |order| && order[j] == s;
    }
  }

  lemma SharesEndedStart(v: View, order: seq<Name>, stored: Copies)
    requires (forall s :: s in order <==> s in v.ls) && Stored(v.ls, stored.ls)
    ensures SharesEnded(v, order, 0, stored, stored, v.li)
  {
    forall j | 0 <= j < |order| ensures order[j] in v.ls {
      assert order[j] in order;
    }
  }

  /** Of the stored instances at most this one is written: if it is as copied, the error is told of it. */
  ghost predicate TellsInstance(u: Uri, i: InstanceInfo, error: Option<string>, before: map<Uri, InstanceInfo>, after: map<Uri, InstanceInfo>,
                                all: bool) {
    && u in before && u in after && after == before[u := after[u]] && StillStands(before[u], after[u])
    && if before[u] != i then after[u] == before[u] else all ==> after[u] == TellInstance(i, error)
  }

  lemma TellsNothing(u: Uri, i: InstanceInfo, instances: map<Uri, InstanceInfo>, all: bool)
    requires u in instances
    ensures TellsInstance(u, i, None, instances, instances, all)
  {
  }

  lemma TellsTwice(u: Uri, i: InstanceInfo, first: Option<string>, second: Option<string>, x: map<Uri, InstanceInfo>, y: map<Uri, InstanceInfo>,
                   z: map<Uri, InstanceInfo>, all: bool)
    requires TellsInstance(u, i, first, x, y, all) && (TellsInstance(u, i, second, y, z, all) || z == y) && (all && z != y ==> second == first)
    ensures TellsInstance(u, i, first, x, z, all)
  {
  }

  /** The error has been told of those of these instances that are stored as they were copied, and nothing else is new. */
  ghost predicate Told(v: View, done: seq<Uri>, before: map<Uri, InstanceInfo>, after: map<Uri, InstanceInfo>) {
    forall u | u in v.li && u in before ::
      && u in after
      && after[u] == if u in done && UpToDate(u, v.li, before) then TellInstance(v.li[u], InstanceError(u, v.li[u], v.ops)) else before[u]
  }

  lemma ToldNext(v: View, done: seq<Uri>, u: Uri, first: map<Uri, InstanceInfo>, before: map<Uri, InstanceInfo>, after: map<Uri, InstanceInfo>,
                 all: bool)
    requires StillStand(first, before) && u in v.li && u !in done
    requires TellsInstance(u, v.li[u], InstanceError(u, v.li[u], v.ops), before, after, all)
    requires all ==> Told(v, done, first, before)
    ensures StillStand(first, after) && (all ==> Told(v, done + [u], first, after))
  {
    StillStandTransitive(first, before, after);
  }

  /**
   * Every share that is gone is marked deleted, unless its instance has no object, or lists it and there is a
   * new error to tell of that instance; of any other share the error is told.
   */
  ghost predicate SharesAfterRound(v: View, shares: map<Name, ShareInfo>) {
    forall s | s in v.ls :: s in shares && shares[s] == AfterSends(s, v)
  }

  ghost function AfterSends(s: Name, v: View): ShareInfo
    requires s in v.ls
  {
    var a := v.ls[s];
    if !IsGone(s, a, v.listing) then TellShare(a, ShareError(s, v))
    else
      var h := a.status.value.handle;
      if h in v.li && (s in v.li[h].Names() ==> TellInstance(v.li[h], InstanceError(h, v.li[h], v.ops)) == v.li[h])
      then a.(status := Some(a.status.value.(phase := Deleted)))
      else a
  }

  lemma EndedAreMarked(v: View, stored: map<Uri, InstanceInfo>, instances: map<Uri, InstanceInfo>, shares: map<Name, ShareInfo>, order: seq<Uri>)
    requires (forall u | u in v.li && v.li[u].Names() != [] :: UpToDate(u, v.li, stored)) && Told(v, order, stored, instances)
    requires (forall u | u in v.li :: u in order) && forall s | s in v.ls :: ShareEnded(s, v, instances, shares)
    ensures SharesAfterRound(v, shares)
  {
    forall s | s in v.ls ensures s in shares && shares[s] == AfterSends(s, v) {
      assert ShareEnded(s, v, instances, shares);
      var h := v.ls[s].Handle();
      assert h in v.li && s in v.li[h].Names() ==> UpToDate(h, v.li, stored);
    }
  }

  /** While requests are sent, a stored instance gets another error text and loses names at most. */
  ghost predicate StillStand(before: map<Uri, InstanceInfo>, after: map<Uri, InstanceInfo>) {
    forall u | u in before :: u in after && StillStands(before[u], after[u])
  }

  ghost predicate StillStands(i: InstanceInfo, i': InstanceInfo) {
    && i' == i.(status := i'.status) && (forall n | n in i'.Names() :: n in i.Names())
    && (i.status.Some? ==> i'.status.Some? && i'.status.value == i.status.value.(shareNames := i'.Names(), error := i'.status.value.error))
  }

  lemma StillStandTransitive(a: map<Uri, InstanceInfo>, b: map<Uri, InstanceInfo>, c: map<Uri, InstanceInfo>)
    requires StillStand(a, b) && StillStand(b, c)
    ensures StillStand(a, c)
  {
    forall u | u in a ensures u in c && StillStands(a[u], c[u]) {
      assert StillStands(a[u], b[u]) && StillStands(b[u], c[u]);
    }
  }

  /**
   * The copies when requests are sent, as long as no call fails. Each live share whose pool has a
   * StorageClass has an instance. Each share that an instance lists points back to it, or has a pool without
   * StorageClass. What the listing says is recorded.
   */
  ghost predicate Prepared(v: View, hosts: seq<CloudInstance>, g: Pools) {
    && AllAssigned(v.ls, g) && AllBack(v.li, v.ls, g)
    && (OneNameEach(v.listing) ==> Recorded(v.listing, |v.listing|, v.ls))
    && (OneUriEach(hosts) ==> RecordedInstances(hosts, |hosts|, v.listing, v.li))
  }

  /**
   * What a round leaves of a copied instance: it is marked if it was, or was empty and had a finalizer;
   * otherwise, if it listed anything, its wanted capacity is the least for what the listed shares want. Of its
   * status names may have gone, and the error is told unless it has just been marked.
   */
  ghost predicate AfterRound(u: Uri, i: InstanceInfo, i': InstanceInfo, ls: map<Name, ShareInfo>, ops: seq<Op>) {
    var empty := i.status.Some? && i.status.value.shareNames == [];
    && (i'.deleting <==> i.deleting || (empty && i.finalizers > 0))
    && (!i'.deleting && i.status.Some? && !empty ==>
          IsLeastFor(i.capacity, Sum(CapsOf(i.status.value.shareNames, ls)), i.status.value.stepGb))
    && StillStands(i.(deleting := i'.deleting), i')
    && i'.StatusOrNew().error ==
       (if i'.deleting && !i.deleting then i else TellInstance(i, InstanceError(u, i, ops))).StatusOrNew().error
  }

  ghost predicate AllAfterRound(v: View, instances: map<Uri, InstanceInfo>) {
    forall u | u in v.li :: u in instances && AfterRound(u, v.li[u], instances[u], v.ls, v.ops)
  }

  lemma StageThenRequests(u: Uri, v: View, condemned: set<Uri>, stored: map<Uri, InstanceInfo>, instances: map<Uri, InstanceInfo>,
                          last: map<Uri, InstanceInfo>, li: map<Uri, InstanceInfo>, order: seq<Uri>)
    requires u in v.li && AllAfterStage(v.li, stored, v.ls) && Mirrors(Marked(v.li, condemned), stored)
    requires Told(v, order, stored, instances) && u in order && StillStand(stored, last) && InstanceKept(u, v.li, instances, li, last)
    ensures u in last && AfterRound(u, v.li[u], last[u], v.ls, v.ops)
  {
    assert u in Marked(v.li, condemned) && AfterStage(v.li[u], stored[u], v.ls) && StillStands(stored[u], last[u]);
  }

  /** The stored objects when requests are about to be sent, as long as no call fails. */
  ghost predicate ReadyToSend(v: View, condemned: set<Uri>, shares: map<Name, ShareInfo>, instances: map<Uri, InstanceInfo>) {
    && Stored(v.ls, shares) && AllAfterStage(v.li, instances, v.ls) && Mirrors(Marked(v.li, condemned), instances)
    && forall u | u in condemned :: u in v.li && InstanceEmpty(v.li[u])
  }

  lemma AssignedIsPrepared(before: Copies, v: View, hosts: seq<CloudInstance>, condemned: set<Uri>, w: World, g: Pools)
    requires AssignedWell(before.ls, before.li, v.ls, w.instances, g) && HandlesKept(before.ls, v.ls) && w.shares == v.ls
    requires Assigned(before.li, Copies(v.ls, v.li), w.instances, g)
    requires Work(Copies(v.ls, Marked(v.li, condemned)), w, g, true) && forall u | u in condemned :: u in v.li && InstanceEmpty(v.li[u])
    requires AllHeld(v.listing, w.cloudShares) && forall c | c in v.listing :: c.parent != ""
    requires OneNameEach(v.listing) ==> Recorded(v.listing, |v.listing|, before.ls)
    requires OneUriEach(hosts) ==> RecordedInstances(hosts, |hosts|, v.listing, before.li)
    ensures Prepared(v, hosts, g) && ReadyToSend(v, condemned, w.shares, w.instances)
  {
    AssignedWellAssigns(before.ls, before.li, v.ls, w.instances, g);
    if OneNameEach(v.listing) { RecordedStays(v.listing, before.ls, v.ls); }
    if OneUriEach(hosts) { RecordedInstancesStay(hosts, v.listing, before.li, v.li, condemned, w); }
  }

  /** No call has failed: `stored` and `instances` are the stored instances before and after instance requests. */
  lemma RoundEnds(v: View, condemned: set<Uri>, stored: map<Uri, InstanceInfo>, instances: map<Uri, InstanceInfo>,
                  now: Copies, li: map<Uri, InstanceInfo>, order: seq<Uri>)
    requires Mirrors(Marked(v.li, condemned), stored) && (forall u | u in condemned :: u in v.li && InstanceEmpty(v.li[u]))
    requires AllAfterStage(v.li, stored, v.ls) && StillStand(stored, instances) && StillStand(instances, now.li)
    requires Told(v, order, stored, instances) && (forall u | u in v.li :: u in order && InstanceKept(u, v.li, instances, li, now.li))
    requires forall s | s in v.ls :: ShareEnded(s, v, instances, now.ls)
    ensures SharesAfterRound(v, now.ls) && AllAfterRound(v, now.li)
  {
    forall u | u in v.li && v.li[u].Names() != [] ensures UpToDate(u, v.li, stored) {
      assert u in Marked(v.li, condemned) && u !in condemned;
    }
    EndedAreMarked(v, stored, instances, now.ls, order);
    StillStandTransitive(stored, instances, now.li);
    forall u | u in v.li ensures u in now.li && AfterRound(u, v.li[u], now.li[u], v.ls, v.ops) {
      StageThenRequests(u, v, condemned, stored, instances, now.li, li, order);
    }
  }
}
