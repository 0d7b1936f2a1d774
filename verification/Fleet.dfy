/**
 * All instances of the cloud with everything that runs on them: what the start and the end of one
 * operation do to the whole, and that both invariants survive it.
 */
module Fleet {
  import opened Wrappers
  import opened Uris
  import opened Capacity
  import opened Operations
  import opened Room

  /** The most shares the driver puts on an instance. */
  function Count(h: Host, feature: bool): int {
    if feature then h.maxShares else MAX_SHARES_PER_INSTANCE
  }

  function TicketOf(waiting: map<Instance, Ticket>, i: Instance): Option<Ticket> {
    if i in waiting then Some(waiting[i]) else None
  }

  function SetTicket(waiting: map<Instance, Ticket>, i: Instance, t: Option<Ticket>): map<Instance, Ticket> {
    if t.Some? then waiting[i := t.value] else waiting - {i}
  }

  /** Exclusion: and an instance that is being deleted has no shares. */
  ghost predicate Excluded(instances: map<Instance, Host>, running: seq<Operation>, nextId: nat) {
    && Exclusive(running)
    && (forall r | r in running :: r.id < nextId)
    && (forall i | i in instances :: ValidInstance(i))
    && forall r | r in running && r.kind.InstanceDelete? && r.instance in instances :: instances[r.instance].shares == []
  }

  ghost predicate HostOk(i: Instance, h: Host, running: seq<Operation>, t: Option<Ticket>, feature: bool) {
    Roomy(i, h, running, t, Count(h, feature)) && (h.stepGb == 0 || StepOk(h.stepGb))
  }

  ghost predicate AllRoomy(instances: map<Instance, Host>, running: seq<Operation>, waiting: map<Instance, Ticket>, feature: bool) {
    forall i | i in instances :: HostOk(i, instances[i], running, TicketOf(waiting, i), feature)
  }

  // Starting an operation.

  /** The cloud refuses an operation on what does not exist, and the creation of what does. */
  predicate Startable(instances: map<Instance, Host>, r: Operation) {
    match r.kind
    case InstanceCreate => r.instance !in instances
    case InstanceUpdate => r.instance in instances
    case InstanceDelete => r.instance in instances
    case ShareCreate => r.instance in instances && forall s | s in instances[r.instance].shares :: s.name != r.share
    case ShareUpdate => r.instance in instances && exists s :: s in instances[r.instance].shares && s.name == r.share
    case ShareDelete => r.instance in instances && exists s :: s in instances[r.instance].shares && s.name == r.share
  }

  /** The instance once the operation has been accepted; `created` is the one to be created. */
  function Accepted(instances: map<Instance, Host>, r: Operation, created: Host): Host
    requires Startable(instances, r)
  {
    match r.kind
    case InstanceCreate => created
    case ShareCreate => var h := instances[r.instance]; h.(shares := h.shares + [ShareRecord(r.share, r.bytes)])
    case _ => instances[r.instance]
  }

  lemma StartKeepsOrder(instances: map<Instance, Host>, running: seq<Operation>, r: Operation, created: Host)
    requires Excluded(instances, running, r.id) && r.Valid() && Startable(instances, r)
    requires forall x | x in running :: !Conflict(x, r)
    requires r.kind.InstanceDelete? ==> instances[r.instance].shares == []
    ensures Excluded(instances[r.instance := Accepted(instances, r, created)], running + [r], r.id + 1)
  {
    StartKeepsExclusive(running, r);
  }

  lemma StartKeepsRoom(instances: map<Instance, Host>, running: seq<Operation>, waiting: map<Instance, Ticket>, feature: bool,
                       r: Operation, created: Host, t: Option<Ticket>)
    requires AllRoomy(instances, running, waiting, feature) && Startable(instances, r)
    requires HostOk(r.instance, Accepted(instances, r, created), running + [r], t, feature)
    ensures AllRoomy(instances[r.instance := Accepted(instances, r, created)], running + [r], SetTicket(waiting, r.instance, t), feature)
  {
    forall i | i in instances && i != r.instance ensures HostOk(i, instances[i], running + [r], TicketOf(waiting, i), feature) {
      StartElsewhere(i, instances[i], running, TicketOf(waiting, i), feature, r);
    }
  }

  lemma StartElsewhere(i: Instance, h: Host, running: seq<Operation>, t: Option<Ticket>, feature: bool, r: Operation)
    requires HostOk(i, h, running, t, feature) && r.instance != i
    ensures HostOk(i, h, running + [r], t, feature)
  {
    RoomyElsewhere(i, h, h, running, running + [r], t, Count(h, feature));
  }

  // The end of an operation.

  /** The cloud after an operation is done. */
  function Ended(instances: map<Instance, Host>, r: Operation, ok: bool): map<Instance, Host> {
    if r.instance !in instances then instances
    else match Finished(instances[r.instance], r, ok)
      case Some(h) => instances[r.instance := h]
      case None => instances - {r.instance}
  }

  lemma EndKeepsOrder(instances: map<Instance, Host>, running: seq<Operation>, nextId: nat, k: nat, ok: bool)
    requires Excluded(instances, running, nextId) && k < |running|
    ensures Excluded(Ended(instances, running[k], ok), Removed(running, k), nextId)
  {
    RemoveKeepsExclusive(running, k);
    var r, rest := running[k], Removed(running, k);
    var after := Ended(instances, r, ok);
    forall x | x in rest && x.kind.InstanceDelete? && x.instance in after ensures after[x.instance].shares == [] {
      if x.instance == r.instance { OthersOn(running, k, x); }
    }
  }

  lemma EndKeepsRoom(instances: map<Instance, Host>, running: seq<Operation>, waiting: map<Instance, Ticket>, feature: bool, k: nat, ok: bool)
    requires Exclusive(running) && AllRoomy(instances, running, waiting, feature) && k < |running|
    ensures var r := running[k];
            AllRoomy(Ended(instances, r, ok), Removed(running, k),
                     SetTicket(waiting, r.instance, TicketAfter(TicketOf(waiting, r.instance), r, ok)), feature)
  {
    var r := running[k];
    var after, waiting' := Ended(instances, r, ok), SetTicket(waiting, r.instance, TicketAfter(TicketOf(waiting, r.instance), r, ok));
    forall i | i in instances && i != r.instance ensures HostOk(i, instances[i], Removed(running, k), TicketOf(waiting, i), feature) {
      EndElsewhere(i, instances[i], running, TicketOf(waiting, i), feature, k);
    }
    if r.instance in instances {
      EndHere(instances[r.instance], running, TicketOf(waiting, r.instance), feature, k, ok);
    }
    forall i | i in after ensures HostOk(i, after[i], Removed(running, k), TicketOf(waiting', i), feature) {
    }
  }

  lemma EndHere(h: Host, running: seq<Operation>, t: Option<Ticket>, feature: bool, k: nat, ok: bool)
    requires Exclusive(running) && k < |running| && HostOk(running[k].instance, h, running, t, feature)
    ensures var r := running[k];
            Finished(h, r, ok).Some? ==> HostOk(r.instance, Finished(h, r, ok).value, Removed(running, k), TicketAfter(t, r, ok), feature)
  {
    if Finished(h, running[k], ok).Some? {
      CompletionKeepsRoom(running[k].instance, h, running, k, t, Count(h, feature), ok);
    }
  }

  lemma EndElsewhere(i: Instance, h: Host, running: seq<Operation>, t: Option<Ticket>, feature: bool, k: nat)
    requires Exclusive(running) && k < |running| && i != running[k].instance && HostOk(i, h, running, t, feature)
    ensures HostOk(i, h, Removed(running, k), t, feature)
  {
    RemoveKeepsExclusive(running, k);
    RoomyElsewhere(i, h, h, running, Removed(running, k), t, Count(h, feature));
  }

  // An instance on which nothing runs.

  /** Nothing runs on the instance. */
  ghost predicate Idle(i: Instance, running: seq<Operation>) {
    forall r | r in running :: r.instance != i
  }

  /** From one moment to another, an idle instance kept everything but its reported state, and its ticket. */
  ghost predicate Unchanged(i: Instance, instances: map<Instance, Host>, waiting: map<Instance, Ticket>,
                            instances': map<Instance, Host>, waiting': map<Instance, Ticket>) {
    && (i in instances' <==> i in instances)
    && (i in instances ==> instances'[i] == instances[i].(state := instances'[i].state))
    && TicketOf(waiting', i) == TicketOf(waiting, i)
  }

  /** Everything that changes while the manager's lock is held or not. */
  datatype Snap = Snap(instances: map<Instance, Host>, running: seq<Operation>, failed: set<nat>, waiting: map<Instance, Ticket>)

  /** From one moment to another, operations have ended and instances reported, and nothing else happened. */
  ghost predicate Elapses(a: Snap, b: Snap) {
    && (forall r | r in b.running :: r in a.running)
    && (forall id | id in b.failed :: id in a.failed || exists r :: r in a.running && r.id == id)
    && a.failed <= b.failed
    && forall i :: ElapsesAt(i, a, b)
  }

  ghost predicate ElapsesAt(i: Instance, a: Snap, b: Snap) {
    && TicketKept(i, a, b)
    && (Idle(i, a.running) ==> Unchanged(i, a.instances, a.waiting, b.instances, b.waiting))
  }

  /** No request has come to wait for the instance, and one that waited does so still unless its operation failed. */
  ghost predicate TicketKept(i: Instance, a: Snap, b: Snap) {
    && (i in b.waiting ==> i in a.waiting && b.waiting[i] == a.waiting[i])
    && (i in a.waiting ==> i in b.waiting || a.waiting[i].opId in b.failed)
  }

  lemma ElapsesTransitive(a: Snap, b: Snap, c: Snap)
    requires Elapses(a, b) && Elapses(b, c)
    ensures Elapses(a, c)
  {
    forall i ensures ElapsesAt(i, a, c) {
      assert ElapsesAt(i, a, b) && ElapsesAt(i, b, c);
    }
    forall id | id in c.failed && id !in a.failed ensures exists r :: r in a.running && r.id == id {
      if id !in b.failed {
        var r :| r in b.running && r.id == id;
        assert r in a.running;
      }
    }
  }

  /** One operation ends. */
  lemma EndElapses(a: Snap, b: Snap, k: nat, ok: bool)
    requires Exclusive(a.running) && k < |a.running|
    requires var r := a.running[k];
             && b.running == Removed(a.running, k) && b.instances == Ended(a.instances, r, ok)
             && b.failed == (if ok then a.failed else a.failed + {r.id})
             && b.waiting == SetTicket(a.waiting, r.instance, TicketAfter(TicketOf(a.waiting, r.instance), r, ok))
    ensures Elapses(a, b)
  {
    RemoveKeepsExclusive(a.running, k);
    assert a.running[k] in a.running;
  }

  /** What serving a request leaves of an instance it does not touch. */
  ghost predicate LeavesAlone(i: Instance, a: Snap, b: Snap) {
    && a.failed <= b.failed && TicketKept(i, a, b)
    && (Idle(i, a.running) ==> Idle(i, b.running) && Unchanged(i, a.instances, a.waiting, b.instances, b.waiting))
  }

  ghost predicate Serves(a: Snap, b: Snap, touched: set<Instance>) {
    forall i | i !in touched :: LeavesAlone(i, a, b)
  }

  lemma LeavesAloneTransitive(i: Instance, a: Snap, b: Snap, c: Snap)
    requires LeavesAlone(i, a, b) && LeavesAlone(i, b, c)
    ensures LeavesAlone(i, a, c)
  {
  }

  lemma ElapsesServes(a: Snap, b: Snap, c: Snap, touched: set<Instance>)
    requires Elapses(a, b)
    ensures Serves(a, b, touched)
    ensures Serves(b, c, touched) ==> Serves(a, c, touched)
  {
    forall i | i !in touched ensures LeavesAlone(i, a, b) && (Serves(b, c, touched) ==> LeavesAlone(i, a, c)) {
      assert ElapsesAt(i, a, b);
      if Serves(b, c, touched) { LeavesAloneTransitive(i, a, b, c); }
    }
  }

  /** Exclusion holds, and in an orderly run so does room. */
  ghost predicate Kept(c: Snap, nextId: nat, orderly: bool, feature: bool) {
    Excluded(c.instances, c.running, nextId) && (orderly ==> AllRoomy(c.instances, c.running, c.waiting, feature))
  }

  lemma BegunKept(a: Snap, b: Snap, r: Operation, created: Host, t: Option<Ticket>, orderly: bool, feature: bool, fair: bool)
    requires Kept(a, r.id, orderly, feature) && r.Valid() && Startable(a.instances, r)
    requires forall x | x in a.running :: !Conflict(x, r)
    requires r.kind.InstanceDelete? ==> a.instances[r.instance].shares == []
    requires orderly && fair ==> HostOk(r.instance, Accepted(a.instances, r, created), a.running + [r], t, feature)
    requires b.instances == a.instances[r.instance := Accepted(a.instances, r, created)] && b.running == a.running + [r]
    requires b.failed == a.failed && b.waiting == SetTicket(a.waiting, r.instance, t)
    ensures Kept(b, r.id + 1, orderly && fair, feature) && Serves(a, b, {r.instance})
  {
    StartKeepsOrder(a.instances, a.running, r, created);
    if orderly && fair { StartKeepsRoom(a.instances, a.running, a.waiting, feature, r, created, t); }
    StartServes(a, b, r, Accepted(a.instances, r, created), t);
  }

  /** One operation is started. */
  lemma StartServes(a: Snap, b: Snap, r: Operation, h: Host, t: Option<Ticket>)
    requires b.instances == a.instances[r.instance := h] && b.running == a.running + [r] && b.failed == a.failed
    requires b.waiting == SetTicket(a.waiting, r.instance, t)
    ensures Serves(a, b, {r.instance})
  {
  }

  lemma {:induction false} CapacitiesAppend(shares: seq<ShareRecord>, s: ShareRecord)
    ensures Capacities(shares + [s]) == Capacities(shares) + [s.capacity]
  {
    if shares == [] {
      assert shares + [s] == [s];
    } else {
      assert (shares + [s])[1..] == shares[1..] + [s];
      CapacitiesAppend(shares[1..], s);
    }
  }

  lemma {:induction false} CapacityOf(shares: seq<ShareRecord>, c: int)
    requires c in Capacities(shares)
    ensures exists s :: s in shares && s.capacity == c
  {
    if c == shares[0].capacity {
      assert shares[0] in shares;
    } else {
      CapacityOf(shares[1..], c);
      var s :| s in shares[1..] && s.capacity == c;
      assert s in shares;
    }
  }

  lemma {:induction false} CapacitiesLength(shares: seq<ShareRecord>)
    ensures |Capacities(shares)| == |shares|
  {
    if shares != [] { CapacitiesLength(shares[1..]); }
  }

  /** However a share comes or grows within its limits, the shares of an instance fit the largest one. */
  lemma SharesFitMax(shares: seq<ShareRecord>, count: int)
    requires count > 0 && |shares| <= count && forall s | s in shares :: 0 <= s.capacity && s.capacity * count <= MAX_INSTANCE
    ensures Sum(Capacities(shares)) <= MAX_INSTANCE
  {
    CapacitiesLength(shares);
    forall c | c in Capacities(shares) ensures 0 <= c <= MAX_INSTANCE / count {
      CapacityOf(shares, c);
      FitsTimes(c, count);
    }
    SumFits(Capacities(shares), count);
  }

  /** Growing one share by what is missing to its new size. */
  lemma {:induction false} SumResized(shares: seq<ShareRecord>, name: string, bytes: int)
    requires NamesDiffer(shares)
    ensures forall s | s in shares && s.name == name ::
              Sum(Capacities(Resized(shares, name, bytes))) == Sum(Capacities(shares)) + bytes - s.capacity
    ensures (forall s | s in shares :: s.name != name) ==> Resized(shares, name, bytes) == shares
  {
    if shares != [] {
      assert Resized(shares, name, bytes)[1..] == Resized(shares[1..], name, bytes);
      SumResized(shares[1..], name, bytes);
      if shares[0].name == name {
        assert forall s | s in shares[1..] :: s.name != name;
      } else {
        assert forall s | s in shares && s.name == name :: s in shares[1..];
      }
    }
  }

  lemma {:induction false} TotalIs(shares: seq<ShareRecord>, k: nat)
    requires k < |shares|
    ensures Sum(Capacities(shares[..k + 1])) == Sum(Capacities(shares[..k])) + shares[k].capacity
  {
    assert shares[..k + 1] == shares[..k] + [shares[k]];
    CapacitiesAppend(shares[..k], shares[k]);
    SumAppend(Capacities(shares[..k]), [shares[k].capacity]);
    assert [shares[k].capacity][1..] == [];
  }

  /** The sum of what a listing of shares shows. */
  method TotalCapacity(shares: seq<ShareRecord>) returns (total: int)
    ensures total == Sum(Capacities(shares))
  {
    total := 0;
    for k := 0 to |shares|
      invariant total == Sum(Capacities(shares[..k]))
    {
      TotalIs(shares, k);
      total := total + shares[k].capacity;
    }
    assert shares[..|shares|] == shares;
  }

  /** A share of this size fits any instance of this count. */
  predicate SizeOk(bytes: int, count: int) {
    0 <= bytes && count > 0 && bytes * count <= MAX_INSTANCE
  }

  /** What a share still lacks to its new size. */
  function Missing(shares: seq<ShareRecord>, name: string, bytes: int): int {
    if shares == [] then 0
    else Max(if shares[0].name == name then bytes - shares[0].capacity else 0, Missing(shares[1..], name, bytes))
  }

  lemma {:induction false} MissingIs(shares: seq<ShareRecord>, name: string, bytes: int)
    requires NamesDiffer(shares)
    ensures Missing(shares, name, bytes) >= 0
    ensures forall s | s in shares && s.name == name :: Missing(shares, name, bytes) == Max(0, bytes - s.capacity)
    ensures (forall s | s in shares :: s.name != name) ==> Missing(shares, name, bytes) == 0
  {
    if shares != [] {
      MissingIs(shares[1..], name, bytes);
      if shares[0].name == name {
        assert forall s | s in shares[1..] :: s.name != name;
      } else {
        assert forall s | s in shares && s.name == name :: s in shares[1..];
      }
    }
  }

  /** Growing a share within its limit, the instance's shares fit the largest instance. */
  lemma GrownSharesFit(i: Instance, shares: seq<ShareRecord>, running: seq<Operation>, count: int, name: string, bytes: int)
    requires SharesFit(i, shares, running, count) && SizeOk(bytes, count)
    ensures Sum(Capacities(shares)) + Missing(shares, name, bytes) <= MAX_INSTANCE
  {
    EachShareFits(i, shares, running, count);
    MissingIs(shares, name, bytes);
    SumResized(shares, name, bytes);
    SharesFitMax(shares, count);
    var grown := Resized(shares, name, bytes);
    forall s | s in grown ensures 0 <= s.capacity && s.capacity * count <= MAX_INSTANCE {
      var j :| 0 <= j < |grown| && grown[j] == s;
      assert shares[j] in shares;
    }
    SharesFitMax(grown, count);
  }

  /** So they do with one more. */
  lemma AddedShareFits(i: Instance, shares: seq<ShareRecord>, running: seq<Operation>, count: int, bytes: int)
    requires SharesFit(i, shares, running, count) && |shares| < count && SizeOk(bytes, count)
    ensures Sum(Capacities(shares)) + bytes <= MAX_INSTANCE
  {
    EachShareFits(i, shares, running, count);
    var s := ShareRecord("", bytes);
    SharesFitMax(shares + [s], count);
    CapacitiesAppend(shares, s);
    SumAppend(Capacities(shares), [bytes]);
    assert [bytes][1..] == [];
  }

  lemma EachShareFits(i: Instance, shares: seq<ShareRecord>, running: seq<Operation>, count: int)
    requires SharesFit(i, shares, running, count) && count >= 0
    ensures forall s | s in shares :: 0 <= s.capacity && s.capacity * count <= MAX_INSTANCE
  {
    forall s | s in shares ensures s.capacity * count <= MAX_INSTANCE {
      PromiseIsBound(i, s, running);
      Scale(s.capacity, Promise(i, s, running), count);
    }
  }

  // The manager's decisions about an idle instance, and the room they leave.

  lemma ShrinkLeavesRoom(i: Instance, h: Host, running: seq<Operation>, feature: bool, r: Operation)
    requires HostOk(i, h, running, None, feature) && Idle(i, running) && r.kind.InstanceUpdate? && r.instance == i
    requires ShrinkTarget(h.capacity, Sum(Capacities(h.shares)), h.stepGb) == Some(r.bytes)
    ensures HostOk(i, h, running + [r], None, feature)
  {
    RoomyMeans(i, h, running, None, Count(h, feature));
    ShrinkFits(h.capacity, Sum(Capacities(h.shares)), h.stepGb);
    UpdateInstanceKeepsRoom(i, h, running, None, Count(h, feature), r);
  }

  lemma EmptyDeleteLeavesRoom(i: Instance, h: Host, running: seq<Operation>, feature: bool, r: Operation)
    requires HostOk(i, h, running, None, feature) && r.kind.InstanceDelete? && r.instance == i && r.bytes >= 0
    ensures HostOk(i, h, running + [r], None, feature)
  {
    DeleteKeepsRoom(i, h, running, None, Count(h, feature), r);
  }

  /** The capacity that an expand relies on: that of the instance grown, or the present one if it is not grown. */
  function ReliedOn(h: Host, parentCapacity: int, need: int, stepGb: int): int {
    match NeedsExpand(parentCapacity, Sum(Capacities(h.shares)), need, stepGb)
    case Some(target) => target
    case None => h.capacity
  }

  /** With a need that is not too small, and no growth only if the reading still holds, that covers the larger share. */
  lemma ExpandCovers(i: Instance, h: Host, running: seq<Operation>, feature: bool, name: string, bytes: int,
                     parentCapacity: int, need: int, stepGb: nat)
    requires HostOk(i, h, running, None, feature) && SizeOk(bytes, Count(h, feature)) && need >= Missing(h.shares, name, bytes)
    requires NeedsExpand(parentCapacity, Sum(Capacities(h.shares)), need, stepGb).Some? || parentCapacity <= h.capacity
    ensures Sum(Capacities(h.shares)) + Missing(h.shares, name, bytes) <= ReliedOn(h, parentCapacity, need, stepGb)
  {
    RoomyMeans(i, h, running, None, Count(h, feature));
    MissingIs(h.shares, name, bytes);
    GrownSharesFit(i, h.shares, running, Count(h, feature), name, bytes);
    GrowFits(parentCapacity, Sum(Capacities(h.shares)), need, stepGb);
  }

  /** The first phase of an expand that has to grow the instance. */
  lemma ExpandLeavesRoom(i: Instance, h: Host, running: seq<Operation>, feature: bool, r: Operation, name: string, bytes: int)
    requires HostOk(i, h, running, None, feature) && Idle(i, running) && r.kind.InstanceUpdate? && r.instance == i
    requires SizeOk(bytes, Count(h, feature))
    requires Sum(Capacities(h.shares)) + Missing(h.shares, name, bytes) <= r.bytes <= MAX_INSTANCE
    ensures HostOk(i, h, running + [r], Some(Ticket(r.id, name, bytes, Missing(h.shares, name, bytes), false)), feature)
  {
    MissingIs(h.shares, name, bytes);
    UpdateInstanceKeepsRoom(i, h, running, Some(Ticket(r.id, name, bytes, Missing(h.shares, name, bytes), false)), Count(h, feature), r);
  }

  /** The first phase of an expand that finds the room. */
  lemma DirectExpandLeavesRoom(i: Instance, h: Host, running: seq<Operation>, feature: bool, r: Operation)
    requires HostOk(i, h, running, None, feature) && Idle(i, running) && r.kind.ShareUpdate? && r.instance == i
    requires SizeOk(r.bytes, Count(h, feature)) && Sum(Capacities(h.shares)) + Missing(h.shares, r.share, r.bytes) <= h.capacity
    ensures HostOk(i, h, running + [r], None, feature)
  {
    MissingIs(h.shares, r.share, r.bytes);
    DemandAtLeastSum(i, h.shares, running);
    UpdateShareKeepsRoom(i, h, running, None, Count(h, feature), r, Missing(h.shares, r.share, r.bytes));
  }

  lemma DeleteLeavesRoom(i: Instance, h: Host, running: seq<Operation>, t: Option<Ticket>, feature: bool, r: Operation)
    requires HostOk(i, h, running, t, feature) && r.kind.ShareDelete? && r.instance == i && r.bytes >= 0 && Startable(map[i := h], r)
    ensures HostOk(i, Accepted(map[i := h], r, h), running + [r], t, feature)
  {
    DeleteKeepsRoom(i, h, running, t, Count(h, feature), r);
  }

  /** The second phase of a request, for which the room was made. */
  lemma SecondLeavesRoom(i: Instance, h: Host, running: seq<Operation>, t: Ticket, feature: bool, r: Operation)
    requires HostOk(i, h, running, Some(t), feature) && r.instance == i && r.share == t.share && r.bytes == t.bytes
    requires if t.create then r.kind.ShareCreate? else r.kind.ShareUpdate?
    requires forall x | x in running && x.instance == i :: !x.OnInstance() && x.share != r.share
    requires Startable(map[i := h], r)
    ensures HostOk(i, Accepted(map[i := h], r, h), running + [r], None, feature)
  {
    if t.create {
      CreateShareKeepsRoom(i, h, running, Some(t), Count(h, feature), r);
    } else {
      UpdateShareKeepsRoom(i, h, running, Some(t), Count(h, feature), r, t.need);
    }
  }

  /** The first phase of a create that has to grow the instance. */
  lemma GrowForShareLeavesRoom(i: Instance, h: Host, running: seq<Operation>, feature: bool, r: Operation, name: string, bytes: int)
    requires HostOk(i, h, running, None, feature) && Idle(i, running) && r.kind.InstanceUpdate? && r.instance == i
    requires SizeOk(bytes, Count(h, feature)) && |h.shares| < Count(h, feature)
    requires NeedsExpand(h.capacity, Sum(Capacities(h.shares)), bytes, h.stepGb) == Some(r.bytes)
    ensures HostOk(i, h, running + [r], Some(Ticket(r.id, name, bytes, bytes, true)), feature)
  {
    RoomyMeans(i, h, running, None, Count(h, feature));
    AddedShareFits(i, h.shares, running, Count(h, feature), bytes);
    GrowFits(h.capacity, Sum(Capacities(h.shares)), bytes, h.stepGb);
    UpdateInstanceKeepsRoom(i, h, running, Some(Ticket(r.id, name, bytes, bytes, true)), Count(h, feature), r);
  }

  /** The first phase of a create that finds the room. */
  lemma DirectCreateLeavesRoom(i: Instance, h: Host, running: seq<Operation>, feature: bool, r: Operation)
    requires HostOk(i, h, running, None, feature) && Idle(i, running) && r.kind.ShareCreate? && r.instance == i
    requires SizeOk(r.bytes, Count(h, feature)) && |h.shares| < Count(h, feature) && forall s | s in h.shares :: s.name != r.share
    requires NeedsExpand(h.capacity, Sum(Capacities(h.shares)), r.bytes, h.stepGb) == None
    ensures HostOk(i, h.(shares := h.shares + [ShareRecord(r.share, r.bytes)]), running + [r], None, feature)
  {
    DemandAtLeastSum(i, h.shares, running);
    CreateShareKeepsRoom(i, h, running, None, Count(h, feature), r);
  }

  // Starting a share operation without looking at the room.

  lemma {:induction false} DemandOfUpdate(i: Instance, shares: seq<ShareRecord>, running: seq<Operation>, r: Operation)
    requires NamesDiffer(shares) && r.kind.ShareUpdate? && r.instance == i
    requires forall x | x in running :: !Raises(x, i, r.share)
    ensures Demand(i, shares, running + [r]) == Demand(i, shares, running) + Missing(shares, r.share, r.bytes)
  {
    if shares != [] {
      var s := shares[0];
      DemandOfUpdate(i, shares[1..], running, r);
      MissingIs(shares[1..], r.share, r.bytes);
      PromiseIsBound(i, s, running);
      PromiseIsBound(i, s, running + [r]);
      if s.name == r.share {
        assert forall x | x in shares[1..] :: x.name != r.share;
        assert r in running + [r];
        PromiseAtMost(i, s, running + [r], Max(s.capacity, r.bytes));
      } else {
        PromiseAtMost(i, s, running + [r], Promise(i, s, running));
        PromiseAtMost(i, s, running, Promise(i, s, running + [r]));
      }
    }
  }

  lemma {:induction false} DemandOfOther(i: Instance, shares: seq<ShareRecord>, running: seq<Operation>, r: Operation)
    requires !r.kind.ShareUpdate?
    ensures Demand(i, shares, running + [r]) == Demand(i, shares, running)
  {
    if shares != [] {
      var s := shares[0];
      DemandOfOther(i, shares[1..], running, r);
      PromiseIsBound(i, s, running);
      PromiseIsBound(i, s, running + [r]);
      PromiseAtMost(i, s, running + [r], Promise(i, s, running));
      PromiseAtMost(i, s, running, Promise(i, s, running + [r]));
    }
  }

  /** The room a share operation takes of its instance. */
  function Taken(h: Host, r: Operation): int {
    if r.kind.ShareCreate? then r.bytes else if r.kind.ShareUpdate? then Missing(h.shares, r.share, r.bytes) else 0
  }

  /**
   * Neither the second phase of a request nor a growth on the strength of an earlier reading looks at the
   * room again. The start of such an operation leaves the instance's shares room exactly when there is
   * still room at that moment for what it takes.
   */
  lemma StartSafeIff(i: Instance, h: Host, running: seq<Operation>, r: Operation)
    requires NamesDiffer(h.shares) && r.instance == i && (r.kind.ShareCreate? || r.kind.ShareUpdate?)
    requires forall x | x in running :: !Conflict(x, r)
    requires Startable(map[i := h], r)
    ensures Demand(i, Accepted(map[i := h], r, h).shares, running + [r]) <= h.capacity
       <==> Demand(i, h.shares, running) + Taken(h, r) <= h.capacity
  {
    if r.kind.ShareCreate? {
      var s := ShareRecord(r.share, r.bytes);
      DemandOfOther(i, h.shares, running, r);
      DemandAppend(i, h.shares, s, running + [r]);
      PromiseIsBound(i, s, running + [r]);
      PromiseAtMost(i, s, running + [r], r.bytes);
    } else {
      DemandOfUpdate(i, h.shares, running, r);
    }
  }

  /**
   * A direct growth is decided on what was read before the lock was taken. It is safe exactly when what
   * the share lacks by now still fits the instance, which is so whenever the reading still holds.
   */
  lemma DirectExpandSafeIff(i: Instance, h: Host, running: seq<Operation>, r: Operation, capacity: int, parentCapacity: int, stepGb: nat)
    requires NamesDiffer(h.shares) && r.kind.ShareUpdate? && r.instance == i && Idle(i, running) && Startable(map[i := h], r)
    requires NeedsExpand(parentCapacity, Sum(Capacities(h.shares)), r.bytes - capacity, stepGb) == None
    ensures Demand(i, h.shares, running + [r]) <= h.capacity
       <==> Sum(Capacities(h.shares)) + Missing(h.shares, r.share, r.bytes) <= h.capacity
    ensures parentCapacity <= h.capacity && Missing(h.shares, r.share, r.bytes) <= r.bytes - capacity ==>
              Demand(i, h.shares, running + [r]) <= h.capacity
  {
    DemandOfUpdate(i, h.shares, running, r);
    DemandAtLeastSum(i, h.shares, running);
  }

  // Runs in which a request is disturbed.

  datatype Cloud = Cloud(instances: map<Instance, Host>, running: seq<Operation>)

  /** The cloud accepts the operation, and nothing runs that keeps the manager from asking. */
  predicate CanBegin(c: Cloud, r: Operation) {
    r.Valid() && Startable(c.instances, r) && forall x | x in c.running :: !Conflict(x, r)
  }

  /** An operation is started and ends well, with nothing in between. */
  function Done(c: Cloud, r: Operation): Cloud
    requires CanBegin(c, r) && r.instance in c.instances
  {
    var instances := c.instances[r.instance := Accepted(c.instances, r, c.instances[r.instance])];
    Cloud(Ended(instances, r, true), Removed(c.running + [r], |c.running|))
  }

  function Used(c: Cloud, i: Instance): int
    requires i in c.instances
  {
    Sum(Capacities(c.instances[i].shares))
  }

  /**
   * The capacity of 2 TiB is read, a shrink to the 1 TiB in use goes through, and a growth by half a TiB,
   * decided on the reading, overfills the instance.
   */
  lemma StaleReadingOverfills(i: Instance) returns (c0: Cloud, c1: Cloud, c2: Cloud, shrink: Operation, grow: Operation)
    requires ValidInstance(i)
    ensures
      && i in c0.instances && c0.instances[i].capacity == 2 * TB && Used(c0, i) == TB && c0.running == []
      && ShrinkTarget(2 * TB, Used(c0, i), c0.instances[i].stepGb) == Some(shrink.bytes) && shrink.kind.InstanceUpdate?
      && CanBegin(c0, shrink) && shrink.instance == i && c1 == Done(c0, shrink)
      && i in c1.instances && NeedsExpand(c0.instances[i].capacity, Used(c1, i), TB - TB / 2, c0.instances[i].stepGb) == None
      && grow.kind.ShareUpdate? && grow.bytes == TB && CanBegin(c1, grow) && grow.instance == i && c2 == Done(c1, grow)
      && i in c2.instances && Used(c2, i) > c2.instances[i].capacity
  {
    var a, b := ShareRecord("a", TB / 2), ShareRecord("b", TB / 2);
    c0 := Cloud(map[i := Host(2 * TB, 1024, 10, "READY", [a, b])], []);
    shrink := Operation(0, InstanceUpdate, i, "", TB);
    grow := Operation(1, ShareUpdate, i, "a", TB);
    SumOfTwo(TB / 2, TB / 2, "a", "b");
    c1 := Done(c0, shrink);
    assert c1.instances[i] == Host(TB, 1024, 10, "READY", [a, b]);
    assert c1.running == [];
    assert a in c1.instances[i].shares;
    c2 := Done(c1, grow);
    assert Resized([a, b], "a", TB) == [ShareRecord("a", TB), b];
    SumOfTwo(TB, TB / 2, "a", "b");
  }

  /**
   * A full instance is grown for one request; before its second phase another request finds that room
   * and takes it; then the first one creates its share as well.
   */
  lemma SecondPhaseOverfills(i: Instance, x: string, y: string, z: string)
    returns (c0: Cloud, c1: Cloud, c2: Cloud, c3: Cloud, grow: Operation, other: Operation, own: Operation)
    requires ValidInstance(i) && Segment(y) && Segment(z) && x != y && x != z && y != z
    ensures
      && i in c0.instances && c0.instances[i].capacity == TB == Used(c0, i) && c0.running == []
      && NeedsExpand(TB, Used(c0, i), own.bytes, c0.instances[i].stepGb) == Some(grow.bytes) && grow.kind.InstanceUpdate?
      && CanBegin(c0, grow) && grow.instance == i && c1 == Done(c0, grow)
      && i in c1.instances && NeedsExpand(c1.instances[i].capacity, Used(c1, i), other.bytes, c1.instances[i].stepGb) == None
      && other.kind.ShareCreate? && CanBegin(c1, other) && other.instance == i && c2 == Done(c1, other)
      && own.kind.ShareCreate? && CanBegin(c2, own) && own.instance == i && i in c2.instances && c3 == Done(c2, own)
      && i in c3.instances && Used(c3, i) > c3.instances[i].capacity
  {
    var a, b, c := ShareRecord(x, TB), ShareRecord(y, TB), ShareRecord(z, TB);
    c0 := Cloud(map[i := Host(TB, 1024, 10, "READY", [a])], []);
    grow := Operation(0, InstanceUpdate, i, "", 2 * TB);
    other := Operation(1, ShareCreate, i, y, TB);
    own := Operation(2, ShareCreate, i, z, TB);
    SumOfThree(x, y, z, TB);
    FullInstance();
    var h0 := Host(TB, 1024, 10, "READY", [a]);
    DoneUpdate(c0, i, h0, grow);
    c1 := Done(c0, grow);
    var h1 := h0.(capacity := 2 * TB);
    DoneCreate(c1, i, h1, other);
    c2 := Done(c1, other);
    assert [a] + [b] == [a, b];
    var h2 := h1.(shares := [a, b]);
    DoneCreate(c2, i, h2, own);
    c3 := Done(c2, own);
    assert [a, b] + [c] == [a, b, c];
  }

  lemma FullInstance()
    ensures NeedsExpand(TB, TB, TB, 1024) == Some(2 * TB)
    ensures NeedsExpand(2 * TB, TB, TB, 1024) == None
  {
  }

  /** Nothing runs, and the instance is this. */
  ghost predicate AtRest(c: Cloud, i: Instance, h: Host) {
    c.running == [] && i in c.instances && c.instances[i] == h
  }

  lemma DoneUpdate(c: Cloud, i: Instance, h: Host, r: Operation)
    requires AtRest(c, i, h) && r.Valid() && r.instance == i && r.kind.InstanceUpdate?
    ensures CanBegin(c, r) && AtRest(Done(c, r), i, h.(capacity := r.bytes))
  {
  }

  lemma DoneCreate(c: Cloud, i: Instance, h: Host, r: Operation)
    requires AtRest(c, i, h) && r.Valid() && r.instance == i && r.kind.ShareCreate? && forall s | s in h.shares :: s.name != r.share
    ensures CanBegin(c, r) && AtRest(Done(c, r), i, h.(shares := h.shares + [ShareRecord(r.share, r.bytes)]))
  {
  }

  lemma SumOfTwo(x: int, y: int, a: string, b: string)
    ensures Sum(Capacities([ShareRecord(a, x), ShareRecord(b, y)])) == x + y
  {
    var s := [ShareRecord(a, x), ShareRecord(b, y)];
    assert s[1..] == [ShareRecord(b, y)] && s[1..][1..] == [];
    assert Capacities(s[1..]) == [y] && [y][1..] == [];
    assert Capacities(s) == [x] + [y] && ([x] + [y])[1..] == [y];
    assert Sum([y]) == y;
  }

  lemma SumOfThree(x: string, y: string, z: string, c: int)
    ensures Sum(Capacities([ShareRecord(x, c)])) == c
    ensures Sum(Capacities([ShareRecord(x, c), ShareRecord(y, c), ShareRecord(z, c)])) == 3 * c
  {
    var s := [ShareRecord(x, c), ShareRecord(y, c), ShareRecord(z, c)];
    SumOfTwo(c, c, y, z);
    assert s[1..] == [ShareRecord(y, c), ShareRecord(z, c)];
    assert Capacities(s) == [c] + Capacities(s[1..]);
    assert ([c] + Capacities(s[1..]))[1..] == Capacities(s[1..]);
    assert [ShareRecord(x, c)][1..] == [];
    assert Capacities([ShareRecord(x, c)]) == [c] && [c][1..] == [];
  }
}
