/**
 * What a listing of the cloud says of shares and instances, and what recording it keeps.
 */
module Observation {
  import opened Wrappers
  import opened Objects
  import opened ApiServer
  import opened PointerRepair

  /** ShareStateToCRDStatus. */
  function SharePhase(state: string): (r: Option<Phase>)
    ensures r == Some(Creating) <==> state == "CREATING"
    ensures r == Some(Ready) <==> state == "READY"
    ensures r == Some(Updating) <==> state == "DELETING" || state == "STATE_UNSPECIFIED"
    ensures r.Some? ==> r.value != Deleted && r.value != Unset
  {
    if state == "CREATING" then Some(Creating)
    else if state == "READY" then Some(Ready)
    else if state == "DELETING" || state == "STATE_UNSPECIFIED" then Some(Updating)
    else None
  }

  /** InstanceStateToCRDStatus. */
  function InstancePhase(state: string): (r: Option<Phase>)
    ensures r == Some(Creating) <==> state == "CREATING"
    ensures r == Some(Ready) <==> state == "READY"
    ensures r == Some(Updating) <==>
              state in {"DELETING", "STATE_UNSPECIFIED", "REPAIRING", "ERROR", "RESTORING", "SUSPENDED", "REVERTING", "RESUMING"}
    ensures r.Some? ==> r.value != Deleted && r.value != Unset
  {
    if state == "CREATING" then Some(Creating)
    else if state == "READY" then Some(Ready)
    else if state in ["DELETING", "STATE_UNSPECIFIED", "REPAIRING", "ERROR", "RESTORING", "SUSPENDED", "REVERTING", "RESUMING"]
    then Some(Updating)
    else None
  }

  /** The names of the listed shares that live on an instance. */
  function NamesOn(listing: seq<CloudShare>, u: Uri): seq<Name> {
    if listing == [] then []
    else (if listing[0].parent == u then [listing[0].name] else []) + NamesOn(listing[1..], u)
  }

  lemma {:induction false} NamesOnExact(listing: seq<CloudShare>, u: Uri)
    ensures forall s :: s in NamesOn(listing, u) <==> ListsShare(listing, s, u)
  {
    if listing != [] {
      NamesOnExact(listing[1..], u);
      forall s ensures s in NamesOn(listing, u) <==> ListsShare(listing, s, u) {
        if ListsShare(listing, s, u) && !(listing[0].name == s && listing[0].parent == u) {
          var c :| c in listing && c.name == s && c.parent == u;
          assert c in listing[1..];
          assert ListsShare(listing[1..], s, u);
        }
        if ListsShare(listing[1..], s, u) {
          var c :| c in listing[1..] && c.name == s && c.parent == u;
          assert c in listing;
        }
      }
    }
  }

  /** The object says of the share what the listing says. */
  ghost predicate Reflects(a: ShareInfo, c: CloudShare) {
    && a.status.Some? && a.Handle() == c.parent && a.status.value.capacity == c.capacity
    && Some(a.PhaseNow()) == SharePhase(c.state)
  }

  ghost predicate OneNameEach(listing: seq<CloudShare>) {
    forall i, j | 0 <= i < j < |listing| :: listing[i].name != listing[j].name
  }

  /** The first k listed shares have objects, up to date where the reported state is known. */
  ghost predicate Recorded(listing: seq<CloudShare>, k: nat, ls: map<Name, ShareInfo>)
    requires k <= |listing|
  {
    forall j | 0 <= j < k :: RecordedShare(listing[j], ls)
  }

  ghost predicate RecordedShare(c: CloudShare, ls: map<Name, ShareInfo>) {
    c.name in ls && (SharePhase(c.state).Some? ==> Reflects(ls[c.name], c))
  }

  lemma RecordedStep(listing: seq<CloudShare>, k: nat, ls: map<Name, ShareInfo>, ls': map<Name, ShareInfo>)
    requires k < |listing| && OneNameEach(listing) && Recorded(listing, k, ls) && RecordedShare(listing[k], ls')
    requires listing[k].name in ls' && ls' == ls[listing[k].name := ls'[listing[k].name]]
    ensures Recorded(listing, k + 1, ls')
  {
    forall j | 0 <= j < k ensures RecordedShare(listing[j], ls') {
      assert RecordedShare(listing[j], ls);
    }
  }

  /** Every copied share is the stored one. */
  ghost predicate Stored(ls: map<Name, ShareInfo>, shares: map<Name, ShareInfo>) {
    forall s | s in ls :: s in shares && shares[s] == ls[s]
  }

  /** What an instance lists after a look at the cloud: nothing less than before, and what lives on it. */
  ghost predicate NamesAdded(was: InstanceInfo, i: InstanceInfo, on: seq<Name>) {
    Distinct(i.Names()) && forall n :: n in i.Names() <==> n in was.Names() || n in on
  }

  /** The object says of the instance what the listing says. */
  ghost predicate ReflectsInstance(i: InstanceInfo, c: CloudInstance) {
    && i.status.Some? && i.status.value.capacity == c.capacity && i.status.value.stepGb == c.stepGb
    && Some(i.status.value.phase) == InstancePhase(c.state)
  }

  /** Every InstanceInfo object has the one finalizer it was created with. */
  ghost predicate OneFinalizer(instances: map<Uri, InstanceInfo>) {
    forall u | u in instances :: instances[u].finalizers == 1
  }

  ghost predicate OneUriEach(hosts: seq<CloudInstance>) {
    forall i, j | 0 <= i < j < |hosts| :: hosts[i].uri != hosts[j].uri
  }

  ghost predicate RecordedInstance(c: CloudInstance, listing: seq<CloudShare>, li: map<Uri, InstanceInfo>) {
    && c.uri in li
    && (InstancePhase(c.state).Some? ==>
          ReflectsInstance(li[c.uri], c) && forall n | n in NamesOn(listing, c.uri) :: n in li[c.uri].Names())
  }

  /** The first k listed instances have objects, up to date where the reported state is known. */
  ghost predicate RecordedInstances(hosts: seq<CloudInstance>, k: nat, listing: seq<CloudShare>, li: map<Uri, InstanceInfo>)
    requires k <= |hosts|
  {
    forall j | 0 <= j < k :: RecordedInstance(hosts[j], listing, li)
  }

  /** Every listed share is held by the cloud. */
  ghost predicate AllHeld(listing: seq<CloudShare>, held: set<(Name, Uri)>) {
    forall s, u | ListsShare(listing, s, u) :: (s, u) in held
  }

  /** Every instance the store holds and the first k of the listing name has been read. */
  ghost predicate Read(hosts: seq<CloudInstance>, k: nat, instances: map<Uri, InstanceInfo>, li: map<Uri, InstanceInfo>)
    requires k <= |hosts|
  {
    forall j | 0 <= j < k && hosts[j].uri in instances :: hosts[j].uri in li
  }

  /** Of two copies of the instances, the later differs at most here. */
  ghost predicate OnlyAt(u: Uri, li: map<Uri, InstanceInfo>, li': map<Uri, InstanceInfo>) {
    forall v | v != u :: (v in li' <==> v in li) && (v in li' ==> li'[v] == li[v])
  }

  lemma ReadStep(hosts: seq<CloudInstance>, k: nat, listing: seq<CloudShare>, instances: map<Uri, InstanceInfo>, li: map<Uri, InstanceInfo>,
                 instances': map<Uri, InstanceInfo>, li': map<Uri, InstanceInfo>)
    requires k < |hosts| && OnlyAt(hosts[k].uri, li, li')
    requires instances'.Keys <= instances.Keys + {hosts[k].uri}
    requires Read(hosts, k, instances, li) && (hosts[k].uri in instances' ==> hosts[k].uri in li')
    ensures Read(hosts, k + 1, instances', li')
    ensures OneUriEach(hosts) && RecordedInstances(hosts, k, listing, li) && RecordedInstance(hosts[k], listing, li')
            ==> RecordedInstances(hosts, k + 1, listing, li')
  {
    if OneUriEach(hosts) && RecordedInstances(hosts, k, listing, li) && RecordedInstance(hosts[k], listing, li') {
      forall j | 0 <= j < k + 1 ensures RecordedInstance(hosts[j], listing, li') {
        assert j < k ==> RecordedInstance(hosts[j], listing, li);
      }
    }
  }

  /**
   * Reading the rest: what was read stays, what is still stored is as it was, and of what is no longer
   * to come all is read but instances on their way out; and those are gone when every call succeeds.
   */
  ghost predicate RestRead(first: map<Uri, InstanceInfo>, li: map<Uri, InstanceInfo>, stored: map<Uri, InstanceInfo>,
                           instances: map<Uri, InstanceInfo>, order: seq<Uri>, k: nat, exact: bool)
    requires k <= |order|
  {
    && (forall u | u in first :: u in li && li[u] == first[u])
    && (forall u | u in instances :: u in stored && instances[u] == stored[u])
    && (forall j | k <= j < |order| :: order[j] in instances && order[j] !in li)
    && (forall u | u in instances && u !in order[k..] && (exact || !instances[u].deleting) :: u in li)
  }

  lemma RestReadStart(first: map<Uri, InstanceInfo>, stored: map<Uri, InstanceInfo>, order: seq<Uri>, exact: bool)
    requires forall u :: u in order <==> u in stored.Keys - first.Keys
    ensures RestRead(first, first, stored, stored, order, 0, exact)
  {
    assert order[0..] == order;
    assert forall j | 0 <= j < |order| :: order[j] in order;
  }

  lemma RestReadEnd(first: map<Uri, InstanceInfo>, li: map<Uri, InstanceInfo>, stored: map<Uri, InstanceInfo>,
                    instances: map<Uri, InstanceInfo>, order: seq<Uri>, exact: bool)
    requires RestRead(first, li, stored, instances, order, |order|, exact) && Mirrors(li, instances)
    ensures forall u | u in instances && !instances[u].deleting :: u in li
    ensures exact ==> li == instances
  {
    assert order[|order|..] == [];
  }

  lemma RestReadStep(first: map<Uri, InstanceInfo>, li: map<Uri, InstanceInfo>, stored: map<Uri, InstanceInfo>, instances: map<Uri, InstanceInfo>,
                     li': map<Uri, InstanceInfo>, instances': map<Uri, InstanceInfo>, order: seq<Uri>, k: nat, exact: bool)
    requires Distinct(order) && k < |order| && RestRead(first, li, stored, instances, order, k, exact)
    requires var u := order[k];
             || (li' == li[u := instances[u]] && instances' == instances)
             || (li' == li && instances[u].deleting && (instances' == instances - {u} || (instances' == instances && !exact)))
    ensures RestRead(first, li', stored, instances', order, k + 1, exact)
  {
    assert order[k..] == [order[k]] + order[k + 1..];
  }

  /** Removing a condemned instance keeps what the copies say of the invariant. */
  lemma RemovalKeepsCopies(w: World, g: Pools, ls: map<Name, ShareInfo>, u: Uri)
    requires Safe(w, g) && CopiesSafe(ls, w.instances, g)
    requires u in w.instances && w.instances[u].deleting && u !in w.cloudInstances
    ensures Safe(w.(instances := w.instances - {u}), g) && CopiesSafe(ls, w.instances - {u}, g)
  {
    RemoveInstanceKeeps(w, g, u);
    forall s | s in ls ensures CopySafe(s, ls[s], w.instances - {u}, g) {
      assert CopySafe(s, ls[s], w.instances, g);
      assert !Lists(w.instances, u, s);
    }
  }

  lemma {:induction false} DistinctNoLonger(a: seq<Name>, b: seq<Name>)
    requires Distinct(b) && forall n | n in b :: n in a
    ensures |b| <= |a|
    decreases |b|
  {
    if b != [] {
      var rest := Without(a, b[0]);
      assert forall n | n in b[1..] :: n in rest;
      WithoutShorter(a, b[0]);
      DistinctNoLonger(rest, b[1..]);
    }
  }

  lemma {:induction false} WithoutShorter(names: seq<Name>, s: Name)
    requires s in names
    ensures |Without(names, s)| < |names|
  {
    if names[0] != s {
      WithoutShorter(names[1..], s);
    }
  }

  /** Recording a share's state keeps the invariant: the handle it is given is the one it has. */
  lemma RecordShareKeeps(w: World, g: Pools, c: CloudShare, st: ShareStatus)
    requires Safe(w, g) && (c.name, c.parent) in w.cloudShares
    requires st.handle == c.parent && st.phase != Deleted
    ensures c.name in w.shares && w.shares[c.name].Handle() == c.parent
    ensures Safe(w.(shares := w.shares[c.name := w.shares[c.name].(status := Some(st))]), g)
  {
    assert ObservedShare(w, c.name, c.parent);
    ShareStatusKeeps(w, g, c.name, st);
  }

  /** Recording an instance's state keeps the invariant: every share listed on it was listed already. */
  lemma RecordInstanceKeeps(w: World, g: Pools, u: Uri, i: InstanceInfo, on: seq<Name>)
    requires Safe(w, g) && u in w.instances && i == w.instances[u].(status := i.status)
    requires NamesAdded(w.instances[u], i, on)
    requires forall n | n in on :: (n, u) in w.cloudShares
    ensures Safe(w.(instances := w.instances[u := i]), g)
  {
    var was := w.instances[u];
    forall n | n in on ensures n in was.Names() {
      assert ObservedShare(w, n, u);
    }
    DistinctNoLonger(was.Names(), i.Names());
    InstanceChangeKeeps(w, g, u, i);
  }

  /** What is read from a world that satisfies the invariant satisfies it too. */
  lemma ReadIsSafe(w: World, g: Pools, s: Name)
    requires Safe(w, g) && s in w.shares
    ensures CopySafe(s, w.shares[s], w.instances, g)
  {
  }
}
