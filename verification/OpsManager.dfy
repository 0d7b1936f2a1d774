/**
 * The multishare ops manager. Each entry point holds the manager's lock: it lists the running
 * operations, decides, and starts at most one. Operations end on their own at any time, also between
 * the listing and the start, which `Meanwhile` stands for.
 */
module OpsManager {
  import opened Wrappers
  import opened Text
  import opened Uris
  import opened Capacity
  import opened Operations
  import opened Room
  import opened Fleet

  /** What an entry point tells its caller. */
  datatype Outcome = Started(op: Operation) | Joined(id: nat) | Exists(share: Share) | Nothing | Aborted | Failed

  /** What a caller read of a share, and of the instance it is on, before the lock was taken. */
  datatype Seen = Seen(capacity: int, parentCapacity: int, parentStepGb: nat)

  /** containsOpWithShareTarget: the first listed operation of this type on this target. */
  method FindOp(kind: Kind, target: string, ops: seq<OpInfo>) returns (id: Option<nat>)
    ensures id.Some? ==> OpInfo(id.value, kind, target) in ops
    ensures id.None? ==> forall op | op in ops :: op.kind != kind || op.target != target
  {
    for k := 0 to |ops|
      invariant forall j | 0 <= j < k :: ops[j].kind != kind || ops[j].target != target
    {
      if ops[k].kind == kind && ops[k].target == target {
        assert ops[k] in ops;
        return Some(ops[k].id);
      }
    }
    return None;
  }

  /** An operation of this type on this share is among these, with this id. */
  ghost predicate Runs(running: seq<Operation>, id: nat, kind: Kind, s: Share) {
    exists r :: r in running && r.id == id && r.kind == kind && r.instance == s.parent && r.share == s.name
  }

  lemma FoundRuns(id: nat, kind: Kind, s: Share, ops: seq<OpInfo>, running: seq<Operation>)
    requires Exclusive(running) && ValidInstance(s.parent) && Segment(s.name)
    requires kind.ShareCreate? || kind.ShareUpdate? || kind.ShareDelete?
    requires OpInfo(id, kind, ShareUri(s)) in ops && forall op | op in ops :: exists r :: r in running && r.Info() == op
    ensures Runs(running, id, kind, s)
  {
    var r :| r in running && r.Info() == OpInfo(id, kind, ShareUri(s));
    ShareUriInjective(Share(r.instance, r.share), s);
  }

  ghost predicate AlreadyRuns(running: seq<Operation>, kind: Kind, s: Share) {
    ValidInstance(s.parent) && Segment(s.name) && exists r :: r in running && r.kind == kind && r.instance == s.parent && r.share == s.name
  }

  lemma NotFoundNotRunning(kind: Kind, s: Share, ops: seq<OpInfo>, running: seq<Operation>)
    requires Listed(ops, running) && (kind.ShareCreate? || kind.ShareUpdate? || kind.ShareDelete?)
    requires forall op | op in ops :: op.kind != kind || op.target != ShareUri(s)
    ensures !AlreadyRuns(running, kind, s)
  {
    forall r | r in running ensures !(r.kind == kind && r.instance == s.parent && r.share == s.name) {
      assert r.Info() in ops;
    }
  }

  /** An operation of this kind on this target has ended well since. */
  ghost predicate EndedWell(kind: Kind, target: string, since: nat, ended: seq<(Operation, bool)>) {
    exists k :: since <= k < |ended| && ended[k].1 && ended[k].0.kind == kind && ended[k].0.Target() == target
  }

  /** The instance has been deleted since, or its creation has failed. */
  ghost predicate WasRemoved(i: Instance, since: nat, ended: seq<(Operation, bool)>) {
    exists k :: since <= k < |ended| && Removes(ended[k], i)
  }

  predicate Removes(e: (Operation, bool), i: Instance) {
    e.0.instance == i && if e.1 then e.0.kind.InstanceDelete? else e.0.kind.InstanceCreate?
  }

  lemma RemovedStep(a: map<Instance, Host>, b: map<Instance, Host>, since: nat, before: seq<(Operation, bool)>, after: seq<(Operation, bool)>)
    requires |after| == |before| + 1 && before <= after && since <= |before|
    requires var e := after[|before|]; b == Ended(a, e.0, e.1)
    ensures forall i | i in a && i !in b :: WasRemoved(i, since, after)
    ensures forall i | WasRemoved(i, since, before) :: WasRemoved(i, since, after)
  {
    forall i | i in a && i !in b ensures WasRemoved(i, since, after) {
      assert Removes(after[|before|], i);
    }
    forall i | WasRemoved(i, since, before) ensures WasRemoved(i, since, after) {
      var k :| since <= k < |before| && Removes(before[k], i);
      assert after[k] == before[k];
    }
  }

  /** The operation has ended well. */
  ghost predicate IsOver(id: nat, c: Snap) {
    id !in c.failed && forall r | r in c.running :: r.id != id
  }

  /** The request that started this operation waits for the instance. */
  predicate IsWaiting(waiting: map<Instance, Ticket>, i: Instance, id: nat) {
    i in waiting && waiting[i].opId == id
  }

  /** This very request waits for the instance: it is the second phase of its own first. */
  predicate HasTicket(waiting: map<Instance, Ticket>, s: Share, bytes: int, create: bool) {
    s.parent in waiting && waiting[s.parent].share == s.name && waiting[s.parent].bytes == bytes && waiting[s.parent].create == create
  }

  /**
   * An expand is that of an orderly run: nobody waits for the instance, the size is within the limit, and
   * the capacity relied on, after what was read before the lock, has room for what the share lacks now.
   */
  predicate ExpandIsFair(s: Share, bytes: int, seen: Seen, h: Host, waiting: map<Instance, Ticket>, feature: bool) {
    && s.parent !in waiting && SizeOk(bytes, Count(h, feature))
    && Sum(Capacities(h.shares)) + Missing(h.shares, s.name, bytes)
       <= ReliedOn(h, seen.parentCapacity, bytes - seen.capacity, seen.parentStepGb)
  }

  /** What a host reports of itself plays no part in that. */
  lemma SameFair(s: Share, bytes: int, seen: Seen, h: Host, h': Host, waiting: map<Instance, Ticket>, feature: bool)
    requires h' == h.(state := h'.state)
    ensures ExpandIsFair(s, bytes, seen, h, waiting, feature) <==> ExpandIsFair(s, bytes, seen, h', waiting, feature)
  {
  }

  lemma FairGrowthLeavesRoom(s: Share, bytes: int, seen: Seen, h: Host, h': Host, running: seq<Operation>, waiting: map<Instance, Ticket>,
                             feature: bool, r: Operation)
    requires h' == h.(state := h'.state) && HostOk(s.parent, h', running, None, feature) && Idle(s.parent, running)
    requires ExpandIsFair(s, bytes, seen, h, waiting, feature) && r.kind.InstanceUpdate? && r.instance == s.parent
    requires NeedsExpand(seen.parentCapacity, Sum(Capacities(h.shares)), bytes - seen.capacity, seen.parentStepGb) == Some(r.bytes)
    ensures HostOk(s.parent, h', running + [r], Some(Ticket(r.id, s.name, bytes, Missing(h.shares, s.name, bytes), false)), feature)
  {
    ExpandLeavesRoom(s.parent, h', running, feature, r, s.name, bytes);
  }

  /** Ready, idle, and with room for another share. */
  ghost predicate Eligible(h: Host, i: Instance, ops: seq<OpInfo>, feature: bool) {
    h.state == "READY" && !BusyInstance(i, ops) && |h.shares| < Count(h, feature)
  }

  /** A new instance is that of an orderly run: the share fits it, and nobody waits for the name. */
  predicate NewHostIsFair(i: Instance, created: Host, bytes: int, waiting: map<Instance, Ticket>, feature: bool) {
    && i !in waiting && SizeOk(bytes, Count(created, feature)) && bytes <= MIN_INSTANCE
    && (created.stepGb == 0 || StepOk(created.stepGb))
  }

  /** What the first phase of a create starts on an instance that is there: its growth, or the share. */
  ghost predicate IsCreateStart(op: Operation, h: Host, waiting: map<Instance, Ticket>, name: string, bytes: int, feature: bool) {
    && |h.shares| < Count(h, feature)
    && match NeedsExpand(h.capacity, Sum(Capacities(h.shares)), bytes, h.stepGb)
       case Some(t) => op.kind.InstanceUpdate? && op.bytes == t && Awaits(waiting, op, name, bytes, true)
       case None => op.kind.ShareCreate? && op.share == name && op.bytes == bytes
  }

  lemma SameStart(op: Operation, h: Host, h': Host, waiting: map<Instance, Ticket>, name: string, bytes: int, feature: bool)
    requires h' == h.(state := h'.state)
    ensures IsCreateStart(op, h, waiting, name, bytes, feature) <==> IsCreateStart(op, h', waiting, name, bytes, feature)
    ensures Count(h, feature) == Count(h', feature)
  {
  }

  /** The instance is idle and there, and the share is there, or not there if it is to be created. */
  ghost predicate CanTake(kind: Kind, s: Share, c: Snap) {
    && ValidInstance(s.parent) && Segment(s.name) && s.parent in c.instances && Idle(s.parent, c.running)
    && (kind.ShareCreate? <==> forall x | x in c.instances[s.parent].shares :: x.name != s.name)
  }

  lemma StillCanTake(kind: Kind, s: Share, a: Snap, b: Snap)
    requires Elapses(a, b)
    ensures CanTake(kind, s, a) ==> CanTake(kind, s, b)
  {
    assert ElapsesAt(s.parent, a, b);
  }

  lemma TakesNew(i: Instance, h: Host, name: string, c: Snap)
    requires ValidInstance(i) && i in c.instances && Idle(i, c.running) && c.instances[i] == h.(state := c.instances[i].state)
    ensures Segment(name) && (forall x | x in h.shares :: x.name != name) ==> CanTake(ShareCreate, Share(i, name), c)
  {
  }

  /** A target on the instance passes the prefix test for it. */
  lemma FreeIsNotBusy(i: Instance, name: string, ops: seq<OpInfo>)
    requires ValidInstance(i) && !BusyInstance(i, ops)
    ensures !BusyTarget(InstanceUri(i), ops) && (Segment(name) ==> !BusyTarget(ShareUri(Share(i, name)), ops))
  {
    TestIsOwnership(i, i, if Segment(name) then name else "x");
  }

  /** The one name that a share of another instance can pass for. */
  function Mimicked(): Instance {
    Instance("locations", "instances", "shares")
  }

  /** What the first phase of an expand starts: the growth of the instance, or of the share. */
  ghost predicate IsExpandStart(op: Operation, h: Host, waiting: map<Instance, Ticket>, s: Share, bytes: int, seen: Seen) {
    && op.instance == s.parent
    && match NeedsExpand(seen.parentCapacity, Sum(Capacities(h.shares)), bytes - seen.capacity, seen.parentStepGb)
       case Some(target) => op.kind.InstanceUpdate? && op.bytes == target && Awaits(waiting, op, s.name, bytes, false)
       case None => op.kind.ShareUpdate? && op.share == s.name && op.bytes == bytes
  }

  /** What is started on an idle instance that is to go or to shrink. */
  ghost predicate IsShrinkStart(op: Operation, i: Instance, h: Host) {
    && op.instance == i
    && if h.shares == [] then op.kind.InstanceDelete?
       else op.kind.InstanceUpdate? && ShrinkTarget(h.capacity, Sum(Capacities(h.shares)), h.stepGb) == Some(op.bytes)
  }

  ghost predicate NothingToShrink(h: Host) {
    h.shares != [] && ShrinkTarget(h.capacity, Sum(Capacities(h.shares)), h.stepGb) == None
  }

  /** The request that started this operation waits for it. */
  ghost predicate Awaits(waiting: map<Instance, Ticket>, op: Operation, name: string, bytes: int, create: bool) {
    IsWaiting(waiting, op.instance, op.id) && HasTicket(waiting, Share(op.instance, name), bytes, create)
  }

  /** On its way up, or ready but busy: room may be had there later. */
  predicate ComingUp(h: Host, i: Instance, ops: seq<OpInfo>) {
    h.state == "CREATING" || h.state == "REPAIRING" || (h.state == "READY" && BusyInstance(i, ops))
  }

  ghost predicate MayHaveRoomLater(instances: map<Instance, Host>, matches: set<Instance>, ops: seq<OpInfo>) {
    exists i :: i in instances && i in matches && ComingUp(instances[i], i, ops)
  }

  ghost predicate HasEligible(instances: map<Instance, Host>, matches: set<Instance>, ops: seq<OpInfo>, feature: bool) {
    exists i :: i in instances && i in matches && Eligible(instances[i], i, ops, feature)
  }

  ghost predicate NoneForNow(instances: map<Instance, Host>, matches: set<Instance>, ops: seq<OpInfo>, feature: bool) {
    !MayHaveRoomLater(instances, matches, ops) && !HasEligible(instances, matches, ops, feature)
  }

  predicate IsFreeName(i: Instance, instances: map<Instance, Host>, ops: seq<OpInfo>) {
    ValidInstance(i) && i !in instances && !BusyInstance(i, ops)
  }

  /** No instance has a share of this name. */
  ghost predicate NameIsNew(instances: map<Instance, Host>, name: string) {
    forall i, x | i in instances && x in instances[i].shares :: x.name != name
  }

  /** No room is to be had on the instance, now or soon: it is ready, idle and full, or not in use at all. */
  ghost predicate NoRoom(h: Host, i: Instance, running: seq<Operation>, feature: bool) {
    && h.state != "CREATING" && h.state != "REPAIRING"
    && (h.state == "READY" ==> Idle(i, running) && |h.shares| >= if feature then h.maxShares else 10)
  }

  /** After the first k of the listing: the eligible ones, and whether any is coming up. */
  ghost predicate Sifted(listed: seq<(Instance, Host)>, k: nat, free: seq<(Instance, Host)>, later: bool, ops: seq<OpInfo>, feature: bool)
    requires k <= |listed|
  {
    && (forall p | p in free :: p in listed[..k] && Eligible(p.1, p.0, ops, feature))
    && (forall p | p in listed[..k] && Eligible(p.1, p.0, ops, feature) :: p in free)
    && (later <==> exists p :: p in listed[..k] && ComingUp(p.1, p.0, ops))
  }

  lemma SiftStep(listed: seq<(Instance, Host)>, k: nat, free: seq<(Instance, Host)>, later: bool, ops: seq<OpInfo>, feature: bool)
    requires k < |listed| && Sifted(listed, k, free, later, ops, feature)
    ensures var (i, h) := listed[k];
            && (Eligible(h, i, ops, feature) ==> Sifted(listed, k + 1, free + [listed[k]], later, ops, feature))
            && (ComingUp(h, i, ops) ==> Sifted(listed, k + 1, free, true, ops, feature))
            && (!Eligible(h, i, ops, feature) && !ComingUp(h, i, ops) ==> Sifted(listed, k + 1, free, later, ops, feature))
  {
    assert listed[..k + 1] == listed[..k] + [listed[k]];
    assert listed[k] in listed[..k + 1];
  }

  /** The ticket of a request whose operation is over stays with it. */
  lemma TicketStays(s: Share, bytes: int, create: bool, a: Snap, b: Snap)
    requires Elapses(a, b)
    ensures HasTicket(b.waiting, s, bytes, create) ==> HasTicket(a.waiting, s, bytes, create)
    ensures HasTicket(a.waiting, s, bytes, create) && IsOver(a.waiting[s.parent].opId, a) ==> HasTicket(b.waiting, s, bytes, create)
  {
    assert ElapsesAt(s.parent, a, b);
  }

  /** Whatever a second phase does to its own instance, it leaves the others alone. */
  lemma SecondServes(i: Instance, a: Snap, b: Snap, c: Snap)
    requires Serves(a, b, {i}) && (c == b || c == b.(waiting := b.waiting - {i}))
    ensures Serves(a, c, {i})
  {
    forall j | j !in {i} ensures LeavesAlone(j, a, c) {
      assert LeavesAlone(j, a, b);
    }
  }

  /** Exactly the operation returned was started and is running, or nothing was. */
  ghost predicate AtMostOne(before: seq<Operation>, after: seq<Operation>, o: Outcome, running: seq<Operation>) {
    if o.Started? then after == before + [o.op] && o.op in running else after == before
  }

  /** Idle instances are listed as they were before, up to the state they report. */
  lemma AtIsThen(a: Snap, b: Snap)
    requires Elapses(a, b)
    ensures forall i | Idle(i, a.running) ::
              (i in b.instances <==> i in a.instances) && (i in b.instances ==> b.instances[i] == a.instances[i].(state := b.instances[i].state))
  {
    forall i | Idle(i, a.running)
      ensures (i in b.instances <==> i in a.instances) && (i in b.instances ==> b.instances[i] == a.instances[i].(state := b.instances[i].state))
    {
      assert ElapsesAt(i, a, b);
    }
  }

  /** A share's creation is running that names this one, if only within a longer name. */
  ghost predicate CreateRuns(running: seq<Operation>, name: string) {
    exists r :: r in running && r.kind.ShareCreate? && Contains(r.Target(), name)
  }

  lemma CreateIsListed(name: string, ops: seq<OpInfo>, running: seq<Operation>)
    requires Listed(ops, running) && forall op | op in ops :: exists r :: r in running && r.Info() == op
    ensures (exists op :: op in ops && op.kind.ShareCreate? && Contains(op.target, name)) <==> CreateRuns(running, name)
  {
    if r :| r in running && r.kind.ShareCreate? && Contains(r.Target(), name) { assert r.Info() in ops; }
    if op :| op in ops && op.kind.ShareCreate? && Contains(op.target, name) {
      var r :| r in running && r.Info() == op;
    }
  }

  /** The instance is in these regions and has a share of this name. */
  ghost predicate HoldsName(at: map<Instance, Host>, i: Instance, name: string, regions: set<string>) {
    i in at && i.location in regions && exists x :: x in at[i].shares && x.name == name
  }

  lemma StillWaits(i: Instance, a: Snap, b: Snap)
    requires Elapses(a, b) && Idle(i, a.running)
    ensures i in a.waiting <==> i in b.waiting
  {
    assert ElapsesAt(i, a, b);
  }

  lemma StillNobodyWaits(i: Instance, a: Snap, b: Snap)
    requires Elapses(a, b)
    ensures i !in a.waiting ==> i !in b.waiting
  {
    assert ElapsesAt(i, a, b);
  }

  /** What is started on an instance that was idle when the operations were listed, in terms of that moment. */
  lemma SeenFrom(op: Operation, first: Snap, listed: Snap, waiting: map<Instance, Ticket>, name: string, bytes: int,
                 ops: seq<OpInfo>, feature: bool)
    requires Elapses(first, listed) && Exclusive(first.running) && Listed(ops, first.running)
    requires op.instance in listed.instances && ValidInstance(op.instance) && !BusyInstance(op.instance, ops)
    requires IsCreateStart(op, listed.instances[op.instance], waiting, name, bytes, feature)
    ensures Idle(op.instance, first.running) && op.instance in first.instances
    ensures IsCreateStart(op, first.instances[op.instance], waiting, name, bytes, feature)
    ensures op.instance in first.waiting <==> op.instance in listed.waiting
    ensures Count(first.instances[op.instance], feature) == Count(listed.instances[op.instance], feature)
  {
    FreeInstance(op.instance, ops, first.running);
    assert ElapsesAt(op.instance, first, listed);
    SameStart(op, first.instances[op.instance], listed.instances[op.instance], waiting, name, bytes, feature);
  }

  /** Room may be had on the instance later: it is not up yet, or busy when the operations are listed. */
  ghost predicate ComesUp(h: Host, i: Instance, running: seq<Operation>) {
    h.state == "CREATING" || h.state == "REPAIRING" || (h.state == "READY" && (!Idle(i, running) || i == Mimicked()))
  }

  /** Room is to be had on the instance now: it is ready, idle and not full. */
  ghost predicate HasRoom(h: Host, i: Instance, running: seq<Operation>, feature: bool) {
    h.state == "READY" && Idle(i, running) && i != Mimicked() && |h.shares| < if feature then h.maxShares else 10
  }

  ghost predicate SomeComesUp(at: map<Instance, Host>, matches: set<Instance>, running: seq<Operation>) {
    exists i :: i in at && i in matches && ComesUp(at[i], i, running)
  }

  ghost predicate SomeHasRoom(at: map<Instance, Host>, matches: set<Instance>, running: seq<Operation>, feature: bool) {
    exists i :: i in at && i in matches && HasRoom(at[i], i, running, feature)
  }

  ghost predicate IsNew(i: Instance, at: map<Instance, Host>, running: seq<Operation>) {
    ValidInstance(i) && i !in at && i != Mimicked() && Idle(i, running)
  }

  /** What a new share calls for: a place on an instance that has room, a new instance if none has or may soon have it, or neither for sure. */
  datatype Due = Place | NewInstance | Unsure

  ghost function DueAt(at: map<Instance, Host>, matches: set<Instance>, target: Instance, name: string,
                       running: seq<Operation>, feature: bool): Due {
    if !NameIsNew(at, name) then Unsure
    else if SomeHasRoom(at, matches, running, feature) then (if Segment(name) then Place else Unsure)
    else if !SomeComesUp(at, matches, running) && IsNew(target, at, running) then NewInstance
    else Unsure
  }

  /** The same, in terms of the operations listed. */
  ghost function DueAsListed(at: map<Instance, Host>, matches: set<Instance>, target: Instance, name: string, ops: seq<OpInfo>, feature: bool): Due {
    if !NameIsNew(at, name) then Unsure
    else if HasEligible(at, matches, ops, feature) then (if Segment(name) then Place else Unsure)
    else if !MayHaveRoomLater(at, matches, ops) && IsFreeName(target, at, ops) then NewInstance
    else Unsure
  }

  /** What the check of the listed instances says of that. */
  lemma Readiness(at: map<Instance, Host>, matches: set<Instance>, listed: seq<(Instance, Host)>, ready: Result<seq<(Instance, Host)>>,
                  target: Instance, name: string, ops: seq<OpInfo>, feature: bool)
    requires forall p | p in listed :: p.0 in at && p.0 in matches && at[p.0] == p.1
    requires forall i | i in at && i in matches :: (i, at[i]) in listed
    requires ready.Ok? ==> forall p | p in ready.value :: p in listed && Eligible(p.1, p.0, ops, feature)
    requires forall p | p in listed && Eligible(p.1, p.0, ops, feature) :: ready.Ok? && p in ready.value
    requires ready.Err? ==> exists p :: p in listed && ComingUp(p.1, p.0, ops)
    requires ready.Ok? && ready.value == [] ==> forall p | p in listed :: !ComingUp(p.1, p.0, ops)
    ensures ready.Err? ==> MayHaveRoomLater(at, matches, ops)
    ensures var due := DueAsListed(at, matches, target, name, ops, feature);
            if ready.Err? then due.Unsure?
            else if ready.value == [] then !due.Place? && (due.NewInstance? ==> IsFreeName(target, at, ops))
            else !due.NewInstance? && (due.Place? ==> Segment(name) && NameIsNew(at, name))
    ensures ready.Ok? && ready.value == [] ==> NoneForNow(at, matches, ops, feature)
  {
    if ready.Err? {
      var p :| p in listed && ComingUp(p.1, p.0, ops);
      assert p.0 in at && ComingUp(at[p.0], p.0, ops);
    }
    if HasEligible(at, matches, ops, feature) {
      var i :| i in at && i in matches && Eligible(at[i], i, ops, feature);
      assert (i, at[i]) in listed;
    }
    if MayHaveRoomLater(at, matches, ops) {
      var i :| i in at && i in matches && ComingUp(at[i], i, ops);
      assert (i, at[i]) in listed;
    }
    if ready.Ok? && ready.value != [] {
      assert ready.value[0] in listed && at[ready.value[0].0] == ready.value[0].1;
    }
  }

  /** A share of the name is found exactly if there is one. */
  lemma FoundIff(at: map<Instance, Host>, name: string, regions: set<string>, found: Option<Share>)
    requires found.Some? ==> found.value.name == name && found.value.parent in at && found.value.parent.location in regions
                             && exists s :: s in at[found.value.parent].shares && s.name == name
    requires found.None? ==> forall i, s | i in at && i.location in regions && s in at[i].shares :: s.name != name
    ensures found.Some? ==> HoldsName(at, found.value.parent, name, regions)
    ensures found.Some? <==> exists i :: HoldsName(at, i, name, regions)
    ensures found.Some? ==> forall matches, target, running, feature :: DueAt(at, matches, target, name, running, feature) == Unsure
  {
    if found.Some? {
      assert HoldsName(at, found.value.parent, name, regions);
      assert !NameIsNew(at, name);
    }
  }

  lemma NewStaysNew(target: Instance, ops: seq<OpInfo>, a: Snap, b: Snap)
    requires Elapses(a, b) && Exclusive(a.running) && Listed(ops, a.running)
    ensures IsFreeName(target, a.instances, ops) ==> target !in b.instances
    ensures target !in a.waiting ==> target !in b.waiting
  {
    if ValidInstance(target) && !BusyInstance(target, ops) { FreeInstance(target, ops, a.running); }
    assert ElapsesAt(target, a, b);
  }

  lemma NothingServes(a: Snap)
    ensures forall touched :: Serves(a, a, touched)
  {
  }

  predicate Answers(o: Outcome, due: Due) {
    && (due.Place? ==> o.Started? && !o.op.kind.InstanceCreate?)
    && (due.NewInstance? ==> o.Started? && o.op.kind.InstanceCreate?)
  }

  lemma RoomAsListed(at: map<Instance, Host>, matches: set<Instance>, target: Instance, name: string, ops: seq<OpInfo>,
                     running: seq<Operation>, feature: bool)
    requires Exclusive(running) && Listed(ops, running) && forall i | i in at :: ValidInstance(i)
    requires forall op | op in ops :: exists r :: r in running && r.Info() == op
    ensures MayHaveRoomLater(at, matches, ops) ==> SomeComesUp(at, matches, running)
    ensures ValidInstance(target) && BusyInstance(target, ops) ==> !Idle(target, running) || target == Mimicked()
    ensures var due := DueAt(at, matches, target, name, running, feature);
            due != Unsure ==> due == DueAsListed(at, matches, target, name, ops, feature)
  {
    forall i | ValidInstance(i) && i != Mimicked() ensures BusyInstance(i, ops) <==> !Idle(i, running) {
      if BusyInstance(i, ops) { BusyForAReason(i, ops, running); } else { FreeInstance(i, ops, running); }
    }
  }

  lemma NoneHasRoom(at: map<Instance, Host>, matches: set<Instance>, ops: seq<OpInfo>, running: seq<Operation>, feature: bool)
    requires Exclusive(running) && Listed(ops, running) && forall i | i in at :: ValidInstance(i)
    requires NoneForNow(at, matches, ops, feature)
    ensures forall i | i in at && i in matches :: NoRoom(at[i], i, running, feature)
  {
    forall i | i in at && i in matches ensures NoRoom(at[i], i, running, feature) {
      if at[i].state == "READY" { FreeInstance(i, ops, running); }
    }
  }

  class Manager {
    var instances: map<Instance, Host>
    var running: seq<Operation>
    var nextId: nat
    var started: seq<Operation>
    var failed: set<nat> // the ids of operations that ended badly
    var ended: seq<(Operation, bool)> // what has ended so far, and whether well
    /** The requests between their two phases. */
    var waiting: map<Instance, Ticket>
    /**
     * So far no request has touched an instance another one was waiting for, or come with a share too
     * large for its instance, or decided on a reading that no longer held.
     */
    var orderly: bool
    const feature: bool
    const willing: bool // the cloud accepts every operation it can carry out

    constructor (feature: bool, willing: bool)
      ensures Valid() && orderly && waiting == map[] && instances == map[] && running == [] && started == []
      ensures this.feature == feature && this.willing == willing
    {
      instances, running, nextId, started, failed, ended := map[], [], 0, [], {}, [];
      waiting, orderly := map[], true;
      this.feature, this.willing := feature, willing;
    }

    ghost function Now(): Snap
      reads this
    {
      Snap(instances, running, failed, waiting)
    }

    /** Exclusion holds in every run, room in every orderly one. */
    ghost predicate Valid()
      reads this
    {
      Kept(Now(), nextId, orderly, feature)
    }

    /** One operation ends, well or not. */
    method End(k: nat, ok: bool)
      requires Valid() && k < |running|
      modifies this`instances, this`running, this`failed, this`ended, this`waiting
      ensures old(ended) <= ended
      ensures Valid()
      ensures running == Removed(old(running), k)
      ensures instances == Ended(old(instances), old(running)[k], ok)
      ensures failed == if ok then old(failed) else old(failed) + {old(running)[k].id}
      ensures ended == old(ended) + [(old(running)[k], ok)]
      ensures Elapses(old(Now()), Now())
    {
      ghost var before := Now();
      EndKeepsOrder(instances, running, nextId, k, ok);
      if orderly { EndKeepsRoom(instances, running, waiting, feature, k, ok); }
      var r := running[k];
      waiting := SetTicket(waiting, r.instance, TicketAfter(TicketOf(waiting, r.instance), r, ok));
      instances := Ended(instances, r, ok);
      running := Removed(running, k);
      failed := if ok then failed else failed + {r.id};
      ended := ended + [(r, ok)];
      EndElapses(before, Now(), k, ok);
    }

    /** An instance reports another state. */
    method Report(i: Instance, state: string)
      requires Valid() && i in instances
      modifies this`instances
      ensures Valid()
      ensures instances == old(instances)[i := old(instances)[i].(state := state)]
    {
      ghost var before := instances;
      instances := instances[i := instances[i].(state := state)];
      if orderly {
        forall j | j in instances ensures HostOk(j, instances[j], running, TicketOf(waiting, j), feature) {
          assert HostOk(j, before[j], running, TicketOf(waiting, j), feature);
          RoomyElsewhere(j, before[j], instances[j], running, running, TicketOf(waiting, j), Count(before[j], feature));
        }
      }
    }

    /** Operations end and instances report, any number of times. */
    method Meanwhile()
      requires Valid()
      modifies this`instances, this`running, this`failed, this`ended, this`waiting
      ensures old(ended) <= ended
      ensures Valid() && Elapses(old(Now()), Now())
      ensures forall i | i in old(instances) && i !in instances :: WasRemoved(i, |old(ended)|, ended)
    {
      var events: nat := *;
      while events > 0
        invariant Valid() && Elapses(old(Now()), Now()) && old(ended) <= ended
        invariant forall i | i in old(instances) && i !in instances :: WasRemoved(i, |old(ended)|, ended)
      {
        ghost var before, done := Now(), ended;
        var k: nat, i: Instance, state: string, ok: bool := *, *, *, *;
        if k < |running| {
          End(k, ok);
        } else if i in instances {
          Report(i, state);
        }
        ElapsesTransitive(old(Now()), before, Now());
        if ended != done { RemovedStep(before.instances, instances, |old(ended)|, done, ended); }
        events := events - 1;
      }
    }

    /** Meanwhile, from the point of view of an instance that was idle when the operations were listed. */
    method MeanwhileIdle(i: Instance, ghost ops: seq<OpInfo>)
      requires Valid() && Idle(i, running) && Listed(ops, running)
      modifies this`instances, this`running, this`failed, this`ended, this`waiting
      ensures old(ended) <= ended
      ensures Valid() && Idle(i, running) && Listed(ops, running) && Elapses(old(Now()), Now())
      ensures Unchanged(i, old(instances), old(waiting), instances, waiting)
    {
      Meanwhile();
      assert ElapsesAt(i, old(Now()), Now());
    }

    /** Reads an instance that was idle when the operations were listed, and in another call its shares. */
    method ReadIdle(i: Instance, ghost ops: seq<OpInfo>) returns (h: Option<Host>)
      requires Valid() && Idle(i, running) && Listed(ops, running)
      modifies this`instances, this`running, this`failed, this`ended, this`waiting
      ensures old(ended) <= ended
      ensures Valid() && Idle(i, running) && Listed(ops, running) && Elapses(old(Now()), Now())
      ensures Unchanged(i, old(instances), old(waiting), instances, waiting)
      ensures h.Some? <==> i in instances
      ensures h.Some? ==> instances[i] == h.value.(state := instances[i].state) && old(instances)[i] == h.value.(state := old(instances)[i].state)
    {
      MeanwhileIdle(i, ops);
      if i !in instances {
        return None;
      }
      ghost var middle := Now();
      h := Some(instances[i]);
      MeanwhileIdle(i, ops);
      ElapsesTransitive(old(Now()), middle, Now());
    }

    /** listMultishareResourceRunningOps. */
    method ListRunningOps() returns (ops: seq<OpInfo>)
      ensures Listed(ops, running) && |ops| == |running|
      ensures forall op | op in ops :: exists r :: r in running && r.Info() == op
    {
      ops := seq(|running|, k requires 0 <= k < |running| reads this => running[k].Info());
      forall r | r in running ensures r.Info() in ops {
        var k :| 0 <= k < |running| && running[k] == r;
        assert ops[k] == r.Info();
      }
    }

    /** Room for the instance of this operation once it is accepted, and for the request waiting on it then. */
    ghost predicate RoomAfter(r: Operation, created: Host, t: Option<Ticket>)
      reads this
    {
      Startable(instances, r) ==> HostOk(r.instance, Accepted(instances, r, created), running + [r], t, feature)
    }

    /**
     * The cloud is asked to start an operation. `t` is the ticket its instance has from then on, and
     * `fair` says that the start is that of an orderly run.
     */
    method Start(r: Operation, created: Host, t: Option<Ticket>, fair: bool) returns (ok: bool)
      requires Valid() && r.id == nextId && r.Valid()
      requires forall x | x in running :: !Conflict(x, r)
      requires r.kind.InstanceDelete? && r.instance in instances ==> instances[r.instance].shares == []
      requires orderly && fair ==> RoomAfter(r, created, t)
      modifies this
      ensures old(ended) <= ended
      ensures Valid()
      ensures ok ==> started == old(started) + [r] && running == old(running) + [r] && (orderly <==> old(orderly) && fair)
      ensures ok ==> waiting == SetTicket(old(waiting), r.instance, t) && failed == old(failed)
      ensures ok ==> Startable(old(instances), r) && instances == old(instances)[r.instance := Accepted(old(instances), r, created)]
      ensures !ok ==> started == old(started) && orderly == old(orderly) && Now() == old(Now())
      ensures willing && Startable(old(instances), r) ==> ok
      ensures Serves(old(Now()), Now(), {r.instance})
    {
      ghost var before, tidy := Now(), orderly;
      ok := Accept(r, created, t, fair);
      if ok {
        BegunKept(before, Now(), r, created, t, tidy, feature, fair);
      }
    }

    /** The cloud's part: what an accepted operation changes. */
    method Accept(r: Operation, created: Host, t: Option<Ticket>, fair: bool) returns (ok: bool)
      modifies this
      ensures old(ended) <= ended
      ensures ok ==>
                && Startable(old(instances), r) && instances == old(instances)[r.instance := Accepted(old(instances), r, created)]
                && started == old(started) + [r] && running == old(running) + [r] && nextId == old(nextId) + 1
                && waiting == SetTicket(old(waiting), r.instance, t) && failed == old(failed) && orderly == (old(orderly) && fair)
      ensures !ok ==> started == old(started) && orderly == old(orderly) && nextId == old(nextId) && Now() == old(Now())
      ensures willing && Startable(old(instances), r) ==> ok
    {
      var refused: bool := *;
      if (refused && !willing) || !Startable(instances, r) {
        return false;
      }
      orderly := orderly && fair;
      instances := instances[r.instance := Accepted(instances, r, created)];
      running, started, nextId := running + [r], started + [r], nextId + 1;
      waiting := SetTicket(waiting, r.instance, t);
      return true;
    }

    /** startShareWorkflow: nothing may run on the host or on the share. */
    method StartShareWorkflow(kind: Kind, s: Share, bytes: int, ops: seq<OpInfo>, t: Option<Ticket>, fair: bool)
      returns (o: Outcome)
      requires Valid() && Listed(ops, running) && (kind.ShareCreate? || kind.ShareUpdate? || kind.ShareDelete?)
      requires var r := Operation(nextId, kind, s.parent, s.name, bytes);
               orderly && fair && (forall x | x in running && x.instance == r.instance :: !x.OnInstance() && x.share != r.share) ==>
                 RoomAfter(r, Host(0, 0, 0, "", []), t)
      modifies this
      ensures old(ended) <= ended
      ensures Valid() && (orderly ==> old(orderly))
      ensures o.Started? || o.Aborted? || o.Failed?
      ensures o.Aborted? <==> ValidInstance(s.parent) && Segment(s.name)
                              && (BusyTarget(InstanceUri(s.parent), ops) || BusyTarget(ShareUri(s), ops))
      ensures willing && CanTake(kind, s, old(Now())) ==> !o.Failed?
      ensures o.Started? ==> o.op == Operation(old(nextId), kind, s.parent, s.name, bytes)
                             && started == old(started) + [o.op] && o.op in running && (orderly <==> old(orderly) && fair)
      ensures o.Started? ==> waiting == SetTicket(old(waiting), o.op.instance, t) && failed == old(failed)
      ensures !o.Started? ==> started == old(started) && orderly == old(orderly) && Now() == old(Now())
      ensures Serves(old(Now()), Now(), if o.Started? then {o.op.instance} else {})
    {
      var r := Operation(nextId, kind, s.parent, s.name, bytes);
      if !r.Valid() {
        return Failed;
      }
      if BusyTarget(InstanceUri(s.parent), ops) || BusyTarget(ShareUri(s), ops) {
        return Aborted;
      }
      FreeShare(s, ops, running);
      var ok := Start(r, Host(0, 0, 0, "", []), t, fair);
      return if ok then Started(r) else Failed;
    }

    /** startInstanceWorkflow: nothing may run on the instance or on any of its shares. */
    method StartInstanceWorkflow(kind: Kind, i: Instance, bytes: int, created: Host, ops: seq<OpInfo>, t: Option<Ticket>, fair: bool)
      returns (o: Outcome)
      requires Valid() && Listed(ops, running) && (kind.InstanceCreate? || kind.InstanceUpdate? || kind.InstanceDelete?)
      requires kind.InstanceDelete? && i in instances ==> instances[i].shares == []
      requires orderly && fair && Idle(i, running) ==> RoomAfter(Operation(nextId, kind, i, "", bytes), created, t)
      modifies this
      ensures old(ended) <= ended
      ensures Valid() && (orderly ==> old(orderly))
      ensures o.Started? || o.Aborted? || o.Failed?
      ensures o.Aborted? <==> ValidInstance(i) && BusyInstance(i, ops)
      ensures willing && ValidInstance(i) && (kind.InstanceCreate? <==> i !in old(instances)) ==> !o.Failed?
      ensures o.Started? ==> o.op == Operation(old(nextId), kind, i, "", bytes)
                             && started == old(started) + [o.op] && o.op in running && (orderly <==> old(orderly) && fair)
      ensures o.Started? ==> waiting == SetTicket(old(waiting), o.op.instance, t) && failed == old(failed)
      ensures !o.Started? ==> started == old(started) && orderly == old(orderly) && Now() == old(Now())
      ensures Serves(old(Now()), Now(), if o.Started? then {o.op.instance} else {})
    {
      var r := Operation(nextId, kind, i, "", bytes);
      if !r.Valid() {
        return Failed;
      }
      if BusyInstance(i, ops) {
        return Aborted;
      }
      FreeInstance(i, ops, running);
      var ok := Start(r, created, t, fair);
      return if ok then Started(r) else Failed;
    }

    /** The request that waits for this operation on the instance is over, whatever became of it. */
    method Abandon(i: Instance, id: nat)
      requires Valid()
      modifies this`waiting
      ensures Valid()
      ensures waiting == if IsWaiting(old(waiting), i, id) then old(waiting) - {i} else old(waiting)
    {
      ghost var before := waiting;
      if IsWaiting(waiting, i, id) {
        waiting := waiting - {i};
      }
      if orderly {
        forall j | j in instances ensures HostOk(j, instances[j], running, TicketOf(waiting, j), feature) {
          assert HostOk(j, instances[j], running, TicketOf(before, j), feature);
        }
      }
    }

    /**
     * The start of a share operation as the manager finds things: a second phase is that of an orderly run
     * if it is the request's that waits for the instance.
     */
    method StartSecond(kind: Kind, s: Share, bytes: int, ops: seq<OpInfo>) returns (o: Outcome)
      requires Valid() && Listed(ops, running) && (kind.ShareCreate? || kind.ShareUpdate?)
      modifies this
      ensures old(ended) <= ended
      ensures Valid() && AtMostOne(old(started), started, o, running) && (o.Started? || o.Aborted? || o.Failed?)
      ensures !o.Started? ==> orderly == old(orderly)
      ensures o.Started? ==> o.op.kind == kind && o.op.instance == s.parent && o.op.share == s.name && o.op.bytes == bytes
      ensures o.Started? ==> (orderly <==> old(orderly) && HasTicket(old(waiting), s, bytes, kind.ShareCreate?))
      ensures o.Aborted? ==> ValidInstance(s.parent) && Segment(s.name) && (BusyTarget(InstanceUri(s.parent), ops) || BusyTarget(ShareUri(s), ops))
      ensures willing && CanTake(kind, s, old(Now())) ==> !o.Failed?
      ensures Serves(old(Now()), Now(), if o.Started? then {o.op.instance} else {})
    {
      ghost var r := Operation(nextId, kind, s.parent, s.name, bytes);
      var fair := HasTicket(waiting, s, bytes, kind.ShareCreate?);
      if orderly && fair && Startable(instances, r) && forall x | x in running && x.instance == r.instance :: !x.OnInstance() && x.share != r.share {
        assert HostOk(s.parent, instances[s.parent], running, TicketOf(waiting, s.parent), feature);
        SecondLeavesRoom(s.parent, instances[s.parent], running, waiting[s.parent], feature, r);
      }
      o := StartShareWorkflow(kind, s, bytes, ops, None, fair);
    }

    /** startShareCreateWorkflowSafe: the second phase of a create. */
    method StartShareCreateWorkflowSafe(s: Share, bytes: int) returns (o: Outcome)
      requires Valid()
      modifies this
      ensures old(ended) <= ended
      ensures Valid() && (orderly ==> old(orderly)) && AtMostOne(old(started), started, o, running)
      ensures !o.Started? ==> orderly == old(orderly)
      ensures o.Started? ==> o.op.kind.ShareCreate? && o.op.instance == s.parent && o.op.share == s.name && o.op.bytes == bytes
      ensures o.Aborted? ==> ShareBusy(s, old(running))
      ensures o.Started? && orderly ==> HasTicket(old(waiting), s, bytes, true)
      ensures !HasTicket(waiting, s, bytes, true)
      ensures willing && CanTake(ShareCreate, s, old(Now())) ==> o.Started?
      ensures o.Started? && old(orderly) && HasTicket(old(waiting), s, bytes, true) && IsOver(old(waiting)[s.parent].opId, old(Now())) ==> orderly
      ensures Serves(old(Now()), Now(), {s.parent})
    {
      o := SecondPhase(ShareCreate, s, bytes);
    }

    /** startShareExpandWorkflowSafe: the second phase of an expand. */
    method StartShareExpandWorkflowSafe(s: Share, bytes: int) returns (o: Outcome)
      requires Valid()
      modifies this
      ensures old(ended) <= ended
      ensures Valid() && (orderly ==> old(orderly)) && AtMostOne(old(started), started, o, running)
      ensures !o.Started? ==> orderly == old(orderly)
      ensures o.Started? ==> o.op.kind.ShareUpdate? && o.op.instance == s.parent && o.op.share == s.name && o.op.bytes == bytes
      ensures o.Aborted? ==> ShareBusy(s, old(running))
      ensures o.Started? && orderly ==> HasTicket(old(waiting), s, bytes, false)
      ensures !HasTicket(waiting, s, bytes, false)
      ensures willing && CanTake(ShareUpdate, s, old(Now())) ==> o.Started?
      ensures o.Started? && old(orderly) && HasTicket(old(waiting), s, bytes, false) && IsOver(old(waiting)[s.parent].opId, old(Now())) ==> orderly
      ensures Serves(old(Now()), Now(), {s.parent})
    {
      o := SecondPhase(ShareUpdate, s, bytes);
    }

    /** What both second phases do: list the running operations, start the share's, and stop waiting. */
    method SecondPhase(kind: Kind, s: Share, bytes: int) returns (o: Outcome)
      requires Valid() && (kind.ShareCreate? || kind.ShareUpdate?)
      modifies this
      ensures old(ended) <= ended
      ensures Valid() && AtMostOne(old(started), started, o, running) && (orderly ==> old(orderly))
      ensures !o.Started? ==> orderly == old(orderly)
      ensures o.Started? || o.Aborted? || o.Failed?
      ensures o.Started? ==> o.op.kind == kind && o.op.instance == s.parent && o.op.share == s.name && o.op.bytes == bytes
      ensures o.Aborted? ==> ShareBusy(s, old(running))
      ensures o.Started? && orderly ==> HasTicket(old(waiting), s, bytes, kind.ShareCreate?)
      ensures !HasTicket(waiting, s, bytes, kind.ShareCreate?)
      ensures willing && CanTake(kind, s, old(Now())) ==> o.Started?
      ensures o.Started? && old(orderly && HasTicket(waiting, s, bytes, kind.ShareCreate?) && IsOver(waiting[s.parent].opId, Now())) ==> orderly
      ensures Serves(old(Now()), Now(), {s.parent})
    {
      var ops := ListRunningOps();
      Meanwhile();
      ghost var before := Now();
      TicketStays(s, bytes, kind.ShareCreate?, old(Now()), before);
      StillCanTake(kind, s, old(Now()), before);
      o := SecondUnderLock(kind, s, bytes, ops);
      if o.Aborted? { BusyShareForAReason(s, ops, old(running)); }
      ElapsesServes(old(Now()), before, Now(), {s.parent});
    }

    /** The share's start, after which the request waits no more. */
    method SecondUnderLock(kind: Kind, s: Share, bytes: int, ops: seq<OpInfo>) returns (o: Outcome)
      requires Valid() && Listed(ops, running) && (kind.ShareCreate? || kind.ShareUpdate?)
      modifies this
      ensures old(ended) <= ended
      ensures Valid() && AtMostOne(old(started), started, o, running) && (o.Started? || o.Aborted? || o.Failed?)
      ensures !o.Started? ==> orderly == old(orderly)
      ensures o.Started? ==> o.op.kind == kind && o.op.instance == s.parent && o.op.share == s.name && o.op.bytes == bytes
      ensures o.Started? ==> (orderly <==> old(orderly) && HasTicket(old(waiting), s, bytes, kind.ShareCreate?))
      ensures o.Aborted? ==> ValidInstance(s.parent) && Segment(s.name) && (BusyTarget(InstanceUri(s.parent), ops) || BusyTarget(ShareUri(s), ops))
      ensures willing && CanTake(kind, s, old(Now())) ==> !o.Failed?
      ensures !HasTicket(waiting, s, bytes, kind.ShareCreate?)
      ensures Serves(old(Now()), Now(), {s.parent})
    {
      o := StartSecond(kind, s, bytes, ops);
      ghost var middle := Now();
      if HasTicket(waiting, s, bytes, kind.ShareCreate?) {
        Abandon(s.parent, waiting[s.parent].opId);
      }
      SecondServes(s.parent, old(Now()), middle, Now());
    }

    /** The start of a share's deletion, which nobody who waits for the instance minds. */
    method StartDelete(s: Share, ops: seq<OpInfo>) returns (o: Outcome)
      requires Valid() && Listed(ops, running)
      modifies this
      ensures old(ended) <= ended
      ensures Valid() && orderly == old(orderly) && AtMostOne(old(started), started, o, running) && (o.Started? || o.Aborted? || o.Failed?)
      ensures o.Started? ==> o.op.kind.ShareDelete? && o.op.instance == s.parent && o.op.share == s.name
      ensures o.Aborted? ==> ValidInstance(s.parent) && Segment(s.name) && (BusyTarget(InstanceUri(s.parent), ops) || BusyTarget(ShareUri(s), ops))
      ensures willing && CanTake(ShareDelete, s, old(Now())) ==> !o.Failed?
      ensures waiting == old(waiting) && failed == old(failed)
      ensures Serves(old(Now()), Now(), if o.Started? then {o.op.instance} else {})
    {
      ghost var r := Operation(nextId, ShareDelete, s.parent, s.name, 0);
      var t := TicketOf(waiting, s.parent);
      if orderly && Startable(instances, r) {
        assert HostOk(s.parent, instances[s.parent], running, t, feature);
        DeleteLeavesRoom(s.parent, instances[s.parent], running, t, feature, r);
      }
      o := StartShareWorkflow(ShareDelete, s, 0, ops, t, true);
    }

    /** checkAndStartShareDeleteWorkflow: joins a running deletion of the share. */
    method CheckAndStartShareDeleteWorkflow(s: Share) returns (o: Outcome)
      requires Valid()
      modifies this
      ensures old(ended) <= ended
      ensures Valid() && orderly == old(orderly) && AtMostOne(old(started), started, o, running)
      ensures o.Started? ==> o.op.kind.ShareDelete? && o.op.instance == s.parent && o.op.share == s.name
      ensures o.Joined? ==> Runs(old(running), o.id, ShareDelete, s)
      ensures AlreadyRuns(old(running), ShareDelete, s) ==> o.Joined?
      ensures o.Aborted? ==> ShareBusy(s, old(running))
      ensures o.Started? || o.Joined? || o.Aborted? || o.Failed?
      ensures willing && CanTake(ShareDelete, s, old(Now())) ==> o.Started?
      ensures TicketKept(s.parent, old(Now()), Now())
      ensures Serves(old(Now()), Now(), if o.Started? then {o.op.instance} else {})
    {
      if !ValidInstance(s.parent) || !Segment(s.name) {
        return Failed;
      }
      var ops := ListRunningOps();
      var found := FindOp(ShareDelete, ShareUri(s), ops);
      if found.Some? {
        FoundRuns(found.value, ShareDelete, s, ops, running);
        return Joined(found.value);
      }
      NotFoundNotRunning(ShareDelete, s, ops, running);
      Meanwhile();
      ghost var before := Now();
      assert ElapsesAt(s.parent, old(Now()), before);
      StillCanTake(ShareDelete, s, old(Now()), before);
      o := StartDelete(s, ops);
      if o.Aborted? { BusyShareForAReason(s, ops, old(running)); }
      ElapsesServes(old(Now()), before, Now(), if o.Started? then {o.op.instance} else {});
    }

    /** checkAndStartInstanceDeleteOrShrinkWorkflow: an idle instance goes when it has no shares, and shrinks to them otherwise. */
    method CheckAndStartInstanceDeleteOrShrinkWorkflow(i: Instance) returns (o: Outcome)
      requires Valid()
      modifies this
      ensures old(ended) <= ended
      ensures Valid() && (orderly ==> old(orderly)) && AtMostOne(old(started), started, o, running)
      ensures !o.Started? ==> orderly == old(orderly)
      ensures o.Started? ==>
                Idle(i, old(running)) && i in old(instances) && IsShrinkStart(o.op, i, old(instances)[i])
      ensures o.Aborted? && i != Mimicked() ==> !Idle(i, old(running))
      ensures ValidInstance(i) && !Idle(i, old(running)) ==> o.Aborted?
      ensures o.Nothing? ==> i !in old(instances) || NothingToShrink(old(instances)[i])
      ensures o.Nothing? ==> i !in instances || NothingToShrink(instances[i])
      ensures ValidInstance(i) && i != Mimicked() && Idle(i, old(running)) && (willing || i !in old(instances) || NothingToShrink(old(instances)[i])) ==>
                if i !in old(instances) || NothingToShrink(old(instances)[i]) then o.Nothing? else o.Started?
      ensures Serves(old(Now()), Now(), if o.Started? then {o.op.instance} else {})
      ensures i !in old(waiting) || !Idle(i, old(running)) ==> orderly == old(orderly)
    {
      if !ValidInstance(i) {
        return Failed;
      }
      var ops := ListRunningOps();
      if BusyInstance(i, ops) {
        if i != Mimicked() { BusyForAReason(i, ops, running); }
        return Aborted;
      }
      FreeInstance(i, ops, running);
      o := DeleteOrShrinkIdle(i, ops);
    }

    /** The deletion or shrink of an instance that was idle when the operations were listed. */
    method DeleteOrShrinkIdle(i: Instance, ops: seq<OpInfo>) returns (o: Outcome)
      requires Valid() && Idle(i, running) && Listed(ops, running)
      modifies this
      ensures old(ended) <= ended
      ensures Valid() && (orderly ==> old(orderly)) && AtMostOne(old(started), started, o, running)
      ensures !o.Started? || i !in old(waiting) ==> orderly == old(orderly)
      ensures !o.Joined? && !o.Exists? && (o.Aborted? ==> BusyInstance(i, ops))
      ensures o.Started? ==> i in old(instances) && IsShrinkStart(o.op, i, old(instances)[i])
      ensures o.Nothing? <==> i !in old(instances) || NothingToShrink(old(instances)[i])
      ensures o.Nothing? ==> i !in instances || NothingToShrink(instances[i])
      ensures willing && ValidInstance(i) ==> !o.Failed?
      ensures Serves(old(Now()), Now(), if o.Started? then {o.op.instance} else {})
    {
      var h := ReadIdle(i, ops);
      ghost var middle := Now();
      if h.None? {
        ElapsesServes(old(Now()), middle, middle, {});
        return Nothing;
      }
      o := StartDeleteOrShrink(i, h.value, ops);
      ElapsesServes(old(Now()), middle, Now(), if o.Started? then {o.op.instance} else {});
    }

    /** What the deletion or shrink of an idle instance comes to. */
    method StartDeleteOrShrink(i: Instance, h: Host, ops: seq<OpInfo>) returns (o: Outcome)
      requires Valid() && i in instances && instances[i] == h.(state := instances[i].state)
      requires Idle(i, running) && Listed(ops, running)
      modifies this
      ensures old(ended) <= ended
      ensures Valid() && (orderly ==> old(orderly)) && AtMostOne(old(started), started, o, running)
      ensures !o.Started? ==> orderly == old(orderly)
      ensures o.Aborted? ==> BusyInstance(i, ops)
      ensures o.Started? ==> IsShrinkStart(o.op, i, h)
      ensures o.Nothing? <==> NothingToShrink(h)
      ensures o.Nothing? ==> i in instances && NothingToShrink(instances[i])
      ensures willing && ValidInstance(i) ==> !o.Failed?
      ensures !o.Joined? && !o.Exists?
      ensures i !in old(waiting) ==> orderly == old(orderly)
      ensures Serves(old(Now()), Now(), if o.Started? then {o.op.instance} else {})
    {
      if |h.shares| == 0 {
        o := StartEmptyDelete(i, h, ops);
        return;
      }
      var total := TotalCapacity(h.shares);
      var target := ShrinkTarget(h.capacity, total, h.stepGb);
      if target.None? {
        return Nothing;
      }
      o := StartShrink(i, h, target.value, ops);
    }

    method StartEmptyDelete(i: Instance, h: Host, ops: seq<OpInfo>) returns (o: Outcome)
      requires Valid() && i in instances && instances[i] == h.(state := instances[i].state) && h.shares == []
      requires Idle(i, running) && Listed(ops, running)
      modifies this
      ensures old(ended) <= ended
      ensures Valid() && AtMostOne(old(started), started, o, running) && (o.Started? || o.Aborted? || o.Failed?)
      ensures o.Aborted? ==> BusyInstance(i, ops)
      ensures o.Started? ==> o.op.instance == i && o.op.kind.InstanceDelete?
      ensures willing && ValidInstance(i) ==> !o.Failed?
      ensures orderly == (old(orderly) && (o.Started? ==> i !in old(waiting)))
      ensures Serves(old(Now()), Now(), if o.Started? then {o.op.instance} else {})
    {
      var fair := i !in waiting;
      ghost var r := Operation(nextId, InstanceDelete, i, "", 0);
      if orderly && fair {
        assert HostOk(i, instances[i], running, None, feature);
        EmptyDeleteLeavesRoom(i, instances[i], running, feature, r);
      }
      o := StartInstanceWorkflow(InstanceDelete, i, 0, h, ops, None, fair);
    }

    method StartShrink(i: Instance, h: Host, target: int, ops: seq<OpInfo>) returns (o: Outcome)
      requires Valid() && i in instances && instances[i] == h.(state := instances[i].state)
      requires Idle(i, running) && Listed(ops, running)
      requires ShrinkTarget(h.capacity, Sum(Capacities(h.shares)), h.stepGb) == Some(target)
      modifies this
      ensures old(ended) <= ended
      ensures Valid() && AtMostOne(old(started), started, o, running) && (o.Started? || o.Aborted? || o.Failed?)
      ensures o.Aborted? ==> BusyInstance(i, ops)
      ensures o.Started? ==> o.op.instance == i && o.op.kind.InstanceUpdate? && o.op.bytes == target
      ensures willing && ValidInstance(i) ==> !o.Failed?
      ensures orderly == (old(orderly) && (o.Started? ==> i !in old(waiting)))
      ensures Serves(old(Now()), Now(), if o.Started? then {o.op.instance} else {})
    {
      var fair := i !in waiting;
      ghost var r := Operation(nextId, InstanceUpdate, i, "", target);
      if orderly && fair {
        assert HostOk(i, instances[i], running, None, feature);
        ShrinkLeavesRoom(i, instances[i], running, feature, r);
      }
      o := StartInstanceWorkflow(InstanceUpdate, i, target, h, ops, None, fair);
    }

    /**
     * checkAndStartInstanceOrShareExpandWorkflow: joins a running growth of the share; otherwise, on an
     * idle instance, grows the share, or first the instance. `seen` was read before the lock was taken.
     */
    method CheckAndStartInstanceOrShareExpandWorkflow(s: Share, bytes: int, seen: Seen) returns (o: Outcome)
      requires Valid() && seen.capacity < bytes
      modifies this
      ensures old(ended) <= ended
      ensures Valid() && (orderly ==> old(orderly)) && AtMostOne(old(started), started, o, running)
      ensures !o.Started? ==> orderly == old(orderly)
      ensures o.Started? || o.Joined? || o.Aborted? || o.Failed?
      ensures o.Joined? ==> Runs(old(running), o.id, ShareUpdate, s)
      ensures AlreadyRuns(old(running), ShareUpdate, s) ==> o.Joined?
      ensures o.Aborted? && s.parent != Mimicked() ==> !Idle(s.parent, old(running))
      ensures ValidInstance(s.parent) && Segment(s.name) && !Idle(s.parent, old(running)) ==> o.Joined? || o.Aborted?
      ensures willing && CanTake(ShareUpdate, s, old(Now())) && s.parent != Mimicked() ==> o.Started?
      ensures o.Started? ==>
                && Idle(s.parent, old(running)) && s.parent in old(instances)
                && IsExpandStart(o.op, old(instances)[s.parent], waiting, s, bytes, seen)
      ensures Serves(old(Now()), Now(), if o.Started? then {o.op.instance} else {})
      ensures o.Started? && old(orderly) ==> (orderly <==> ExpandIsFair(s, bytes, seen, old(instances)[s.parent], old(waiting), feature))
    {
      if !ValidInstance(s.parent) || !Segment(s.name) {
        return Failed;
      }
      var ops := ListRunningOps();
      var found := FindOp(ShareUpdate, ShareUri(s), ops);
      if found.Some? {
        FoundRuns(found.value, ShareUpdate, s, ops, running);
        return Joined(found.value);
      }
      NotFoundNotRunning(ShareUpdate, s, ops, running);
      if BusyInstance(s.parent, ops) {
        if s.parent != Mimicked() { BusyForAReason(s.parent, ops, running); }
        return Aborted;
      }
      FreeInstance(s.parent, ops, running);
      o := ExpandIdle(s, bytes, seen, ops);
      if BusyTarget(InstanceUri(s.parent), ops) || BusyTarget(ShareUri(s), ops) { TestIsOwnership(s.parent, s.parent, s.name); }
    }

    /** An expand on an instance that was idle when the operations were listed. */
    method ExpandIdle(s: Share, bytes: int, seen: Seen, ops: seq<OpInfo>) returns (o: Outcome)
      requires Valid() && seen.capacity < bytes && Idle(s.parent, running) && Listed(ops, running)
      modifies this
      ensures old(ended) <= ended
      ensures Valid() && (orderly ==> old(orderly)) && AtMostOne(old(started), started, o, running)
      ensures !o.Started? ==> orderly == old(orderly)
      ensures o.Started? || o.Aborted? || o.Failed?
      ensures o.Aborted? ==> BusyInstance(s.parent, ops) || BusyTarget(InstanceUri(s.parent), ops) || BusyTarget(ShareUri(s), ops)
      ensures willing && CanTake(ShareUpdate, s, old(Now())) ==> !o.Failed?
      ensures o.Started? ==> s.parent in old(instances) && IsExpandStart(o.op, old(instances)[s.parent], waiting, s, bytes, seen)
      ensures o.Started? && old(orderly) ==> (orderly <==> ExpandIsFair(s, bytes, seen, old(instances)[s.parent], old(waiting), feature))
      ensures Serves(old(Now()), Now(), if o.Started? then {o.op.instance} else {})
    {
      var h := ReadIdle(s.parent, ops);
      ghost var middle := Now();
      if h.None? {
        ElapsesServes(old(Now()), middle, middle, {});
        return Failed;
      }
      SameFair(s, bytes, seen, h.value, old(instances)[s.parent], old(waiting), feature);
      StillCanTake(ShareUpdate, s, old(Now()), middle);
      StillWaits(s.parent, old(Now()), middle);
      o := StartExpand(s, bytes, seen, h.value, ops);
      ElapsesServes(old(Now()), middle, Now(), if o.Started? then {o.op.instance} else {});
    }

    /** The start that an expand decides on, for an idle instance. */
    method StartExpand(s: Share, bytes: int, seen: Seen, h: Host, ops: seq<OpInfo>) returns (o: Outcome)
      requires Valid() && seen.capacity < bytes && s.parent in instances && instances[s.parent] == h.(state := instances[s.parent].state)
      requires Idle(s.parent, running) && Listed(ops, running)
      modifies this
      ensures old(ended) <= ended
      ensures Valid() && (orderly ==> old(orderly)) && AtMostOne(old(started), started, o, running)
      ensures !o.Started? ==> orderly == old(orderly)
      ensures o.Started? || o.Aborted? || o.Failed?
      ensures o.Aborted? ==> BusyInstance(s.parent, ops) || BusyTarget(InstanceUri(s.parent), ops) || BusyTarget(ShareUri(s), ops)
      ensures willing && CanTake(ShareUpdate, s, old(Now())) ==> !o.Failed?
      ensures o.Started? ==> IsExpandStart(o.op, h, waiting, s, bytes, seen)
      ensures o.Started? && old(orderly) ==> (orderly <==> ExpandIsFair(s, bytes, seen, h, old(waiting), feature))
      ensures Serves(old(Now()), Now(), if o.Started? then {o.op.instance} else {})
    {
      var used := TotalCapacity(h.shares);
      var target := NeedsExpand(seen.parentCapacity, used, bytes - seen.capacity, seen.parentStepGb);
      if target.Some? {
        o := GrowForExpand(s, bytes, seen, h, target.value, ops);
      } else {
        o := ExpandDirectly(s, bytes, seen, h, ops);
      }
    }

    /** The instance is grown first, and the request waits. */
    method GrowForExpand(s: Share, bytes: int, seen: Seen, h: Host, target: int, ops: seq<OpInfo>) returns (o: Outcome)
      requires Valid() && seen.capacity < bytes && s.parent in instances && instances[s.parent] == h.(state := instances[s.parent].state)
      requires Idle(s.parent, running) && Listed(ops, running)
      requires NeedsExpand(seen.parentCapacity, Sum(Capacities(h.shares)), bytes - seen.capacity, seen.parentStepGb) == Some(target)
      modifies this
      ensures old(ended) <= ended
      ensures Valid() && AtMostOne(old(started), started, o, running) && (o.Started? || o.Aborted? || o.Failed?)
      ensures o.Aborted? ==> BusyInstance(s.parent, ops)
      ensures o.Started? ==> o.op.instance == s.parent && o.op.kind.InstanceUpdate? && o.op.bytes == target && Awaits(waiting, o.op, s.name, bytes, false)
      ensures willing && ValidInstance(s.parent) ==> !o.Failed?
      ensures orderly == (old(orderly) && (o.Started? ==> ExpandIsFair(s, bytes, seen, h, old(waiting), feature)))
      ensures Serves(old(Now()), Now(), if o.Started? then {o.op.instance} else {})
    {
      var fair := ExpandIsFair(s, bytes, seen, h, waiting, feature);
      ghost var r := Operation(nextId, InstanceUpdate, s.parent, "", target);
      if orderly && fair {
        assert HostOk(s.parent, instances[s.parent], running, None, feature);
        FairGrowthLeavesRoom(s, bytes, seen, h, instances[s.parent], running, waiting, feature, r);
      }
      o := StartInstanceWorkflow(InstanceUpdate, s.parent, target, h, ops,
                                 Some(Ticket(nextId, s.name, bytes, Missing(h.shares, s.name, bytes), false)), fair);
    }

    /** The share is grown at once. */
    method ExpandDirectly(s: Share, bytes: int, seen: Seen, h: Host, ops: seq<OpInfo>) returns (o: Outcome)
      requires Valid() && seen.capacity < bytes && s.parent in instances && instances[s.parent] == h.(state := instances[s.parent].state)
      requires Idle(s.parent, running) && Listed(ops, running)
      requires NeedsExpand(seen.parentCapacity, Sum(Capacities(h.shares)), bytes - seen.capacity, seen.parentStepGb) == None
      modifies this
      ensures old(ended) <= ended
      ensures Valid() && AtMostOne(old(started), started, o, running) && (o.Started? || o.Aborted? || o.Failed?)
      ensures o.Aborted? ==> BusyTarget(InstanceUri(s.parent), ops) || BusyTarget(ShareUri(s), ops)
      ensures o.Started? ==> o.op.instance == s.parent && o.op.kind.ShareUpdate? && o.op.share == s.name && o.op.bytes == bytes
      ensures willing && CanTake(ShareUpdate, s, old(Now())) ==> !o.Failed?
      ensures orderly == (old(orderly) && (o.Started? ==> ExpandIsFair(s, bytes, seen, h, old(waiting), feature)))
      ensures Serves(old(Now()), Now(), if o.Started? then {o.op.instance} else {})
    {
      var fair := ExpandIsFair(s, bytes, seen, h, waiting, feature);
      ghost var r := Operation(nextId, ShareUpdate, s.parent, s.name, bytes);
      if orderly && fair {
        assert HostOk(s.parent, instances[s.parent], running, None, feature);
        DirectExpandLeavesRoom(s.parent, instances[s.parent], running, feature, r);
      }
      o := StartShareWorkflow(ShareUpdate, s, bytes, ops, None, fair);
    }

    /** listMatchedInstances: all instances there are that match a request, its regions included, as they are now. */
    method ListMatchedInstances(matches: set<Instance>) returns (listed: seq<(Instance, Host)>)
      ensures forall p | p in listed :: p.0 in instances && p.0 in matches && instances[p.0] == p.1
      ensures forall i | i in instances && i in matches :: (i, instances[i]) in listed
    {
      listed := [];
      var rest := instances.Keys * matches;
      while rest != {}
        invariant rest <= instances.Keys * matches
        invariant forall p | p in listed :: p.0 in instances && p.0 in matches && instances[p.0] == p.1
        invariant forall i | i in instances && i in matches && i !in rest :: (i, instances[i]) in listed
      {
        var i :| i in rest;
        listed := listed + [(i, instances[i])];
        rest := rest - {i};
      }
    }

    /**
     * runEligibleInstanceCheck: of the listed instances, those that are ready, idle and not full. It is
     * an error if there are none but some may yet become so.
     */
    method RunEligibleInstanceCheck(listed: seq<(Instance, Host)>, ops: seq<OpInfo>) returns (ready: Result<seq<(Instance, Host)>>)
      requires Valid() && Listed(ops, running)
      requires forall p | p in listed :: p.0 in instances && instances[p.0] == p.1
      modifies this`instances, this`running, this`failed, this`ended, this`waiting
      ensures old(ended) <= ended
      ensures Valid() && Listed(ops, running)
      ensures Elapses(old(Now()), Now())
      ensures ready.Ok? ==> forall p | p in ready.value :: p in listed && Eligible(p.1, p.0, ops, feature)
      ensures forall p | p in listed && Eligible(p.1, p.0, ops, feature) :: ready.Ok? && p in ready.value
      ensures ready.Err? ==> exists p :: p in listed && ComingUp(p.1, p.0, ops)
      ensures ready.Ok? && ready.value == [] ==> forall p | p in listed :: !ComingUp(p.1, p.0, ops)
    {
      var free, later := [], false;
      for k := 0 to |listed|
        invariant Valid() && Listed(ops, running)
        invariant Elapses(old(Now()), Now()) && old(ended) <= ended
        invariant Sifted(listed, k, free, later, ops, feature)
      {
        var (i, h) := listed[k];
        assert listed[k] in listed;
        SiftStep(listed, k, free, later, ops, feature);
        if h.state == "CREATING" || h.state == "REPAIRING" {
          later := true;
        } else if h.state == "READY" {
          if BusyInstance(i, ops) {
            later := true;
          } else {
            ghost var before := Now();
            Meanwhile();
            ElapsesTransitive(old(Now()), before, Now());
            FreeInstance(i, ops, old(running));
            assert ElapsesAt(i, old(Now()), Now());
            if |instances[i].shares| < Count(h, feature) {
              free := free + [listed[k]];
            }
          }
        }
      }
      assert listed[..|listed|] == listed;
      if |free| == 0 && later {
        return Err;
      }
      return Ok(free);
    }

    /** The start that a create decides on, for an idle instance with room for another share. */
    method StartCreate(i: Instance, h: Host, name: string, bytes: int, used: int, ops: seq<OpInfo>) returns (o: Outcome)
      requires Valid() && i in instances && instances[i] == h.(state := instances[i].state)
      requires used == Sum(Capacities(h.shares)) && |h.shares| < Count(h, feature)
      requires Idle(i, running) && Listed(ops, running)
      modifies this
      ensures old(ended) <= ended
      ensures Valid() && (orderly ==> old(orderly)) && AtMostOne(old(started), started, o, running)
      ensures !o.Started? ==> orderly == old(orderly)
      ensures o.Started? || o.Aborted? || o.Failed?
      ensures o.Aborted? ==> BusyInstance(i, ops) || BusyTarget(InstanceUri(i), ops) || (Segment(name) && BusyTarget(ShareUri(Share(i, name)), ops))
      ensures willing && CanTake(ShareCreate, Share(i, name), old(Now())) ==> !o.Failed?
      ensures o.Started? ==>
                && o.op.instance == i
                && match NeedsExpand(h.capacity, used, bytes, h.stepGb)
                   case Some(target) => o.op.kind.InstanceUpdate? && o.op.bytes == target && Awaits(waiting, o.op, name, bytes, true)
                   case None => o.op.kind.ShareCreate? && o.op.share == name && o.op.bytes == bytes
      ensures Serves(old(Now()), Now(), if o.Started? then {o.op.instance} else {})
      ensures o.Started? && old(orderly) ==> (orderly <==> i !in old(waiting) && SizeOk(bytes, Count(h, feature)))
    {
      ghost var now := instances[i];
      var fair := i !in waiting && SizeOk(bytes, Count(h, feature));
      assert orderly && fair ==> HostOk(i, now, running, None, feature);
      var target := NeedsExpand(h.capacity, used, bytes, h.stepGb);
      if target.Some? {
        ghost var r := Operation(nextId, InstanceUpdate, i, "", target.value);
        if orderly && fair { GrowForShareLeavesRoom(i, now, running, feature, r, name, bytes); }
        o := StartInstanceWorkflow(InstanceUpdate, i, target.value, h, ops, Some(Ticket(nextId, name, bytes, bytes, true)), fair);
      } else {
        ghost var r := Operation(nextId, ShareCreate, i, name, bytes);
        if orderly && fair && Startable(instances, r) { DirectCreateLeavesRoom(i, now, running, feature, r); }
        o := StartShareWorkflow(ShareCreate, Share(i, name), bytes, ops, None, fair);
      }
    }

    /** The start of a new instance for a share. */
    method StartNew(target: Instance, created: Host, name: string, bytes: int, ops: seq<OpInfo>) returns (o: Outcome)
      requires Valid() && Listed(ops, running) && created.shares == [] && created.capacity == MIN_INSTANCE
      modifies this
      ensures old(ended) <= ended
      ensures Valid() && (orderly ==> old(orderly)) && AtMostOne(old(started), started, o, running)
      ensures !o.Started? ==> orderly == old(orderly)
      ensures o.Started? || o.Aborted? || o.Failed?
      ensures o.Started? ==> o.op.instance == target && o.op.kind.InstanceCreate? && o.op.bytes == TB && Awaits(waiting, o.op, name, bytes, true)
      ensures o.Aborted? ==> BusyInstance(target, ops)
      ensures willing && ValidInstance(target) && target !in old(instances) ==> !o.Failed?
      ensures Serves(old(Now()), Now(), if o.Started? then {o.op.instance} else {})
      ensures o.Started? && old(orderly) ==> (orderly <==> NewHostIsFair(target, created, bytes, old(waiting), feature))
    {
      var t := Ticket(nextId, name, bytes, bytes, true);
      var fair := NewHostIsFair(target, created, bytes, waiting, feature);
      if orderly && fair && Idle(target, running) {
        CreateInstanceKeepsRoom(target, created, running, t, Count(created, feature),
                                Operation(nextId, InstanceCreate, target, "", MIN_INSTANCE));
      }
      o := StartInstanceWorkflow(InstanceCreate, target, MIN_INSTANCE, created, ops, Some(t), fair);
    }

    /** A share of this name, on any instance in the regions of the request. */
    method FindShare(name: string, regions: set<string>) returns (found: Option<Share>)
      ensures found.Some? ==> found.value.name == name && found.value.parent in instances && found.value.parent.location in regions
                              && exists s :: s in instances[found.value.parent].shares && s.name == name
      ensures found.None? ==> forall i, s | i in instances && i.location in regions && s in instances[i].shares :: s.name != name
    {
      var rest := set i | i in instances && i.location in regions;
      while rest != {}
        invariant forall i | i in rest :: i in instances && i.location in regions
        invariant forall i, s | i in instances && i.location in regions && i !in rest && s in instances[i].shares :: s.name != name
      {
        var i :| i in rest;
        if s :| s in instances[i].shares && s.name == name {
          return Some(Share(i, name));
        }
        rest := rest - {i};
      }
      return None;
    }

    /** The start for a share that is neither there nor being created. */
    method StartSomewhere(name: string, bytes: int, target: Instance, created: Host, matches: set<Instance>, ops: seq<OpInfo>) returns (o: Outcome)
      requires Valid() && Listed(ops, running) && created.shares == [] && created.capacity == MIN_INSTANCE
      modifies this
      ensures old(ended) <= ended
      ensures Valid() && (orderly ==> old(orderly)) && AtMostOne(old(started), started, o, running)
      ensures !o.Started? ==> orderly == old(orderly)
      ensures o.Started? || o.Aborted? || o.Failed?
      ensures o.Started? && o.op.kind.InstanceCreate? ==> NoneForNow(old(instances), matches, ops, feature)
      ensures o.Aborted? ==> MayHaveRoomLater(old(instances), matches, ops) || BusyInstance(target, ops)
      ensures willing ==> Answers(o, DueAsListed(old(instances), matches, target, name, ops, feature))
      ensures o.Started? ==>
                if o.op.kind.InstanceCreate? then o.op.instance == target && o.op.bytes == TB && Awaits(waiting, o.op, name, bytes, true)
                else o.op.instance in old(instances) && o.op.instance in matches && !BusyInstance(o.op.instance, ops)
                     && IsCreateStart(o.op, old(instances)[o.op.instance], waiting, name, bytes, feature)
      ensures o.Started? && o.op.kind.InstanceCreate? && old(orderly) && NewHostIsFair(target, created, bytes, old(waiting), feature) ==> orderly
      ensures o.Started? && !o.op.kind.InstanceCreate? && old(orderly) ==>
                (orderly <==> o.op.instance !in old(waiting) && SizeOk(bytes, Count(old(instances)[o.op.instance], feature)))
      ensures Serves(old(Now()), Now(), if o.Started? then {o.op.instance} else {})
    {
      var listed := ListMatchedInstances(matches);
      var ready := RunEligibleInstanceCheck(listed, ops);
      ghost var first, middle := old(Now()), Now();
      Readiness(first.instances, matches, listed, ready, target, name, ops, feature);
      if ready.Err? {
        o := Aborted;
        ElapsesServes(first, middle, middle, {});
      } else {
        assert forall p | p in ready.value :: p in listed;
        o := StartReady(ready.value, name, bytes, target, created, matches, ops, first);
      }
    }

    /** The start on one of the instances that are ready, or on a new one if there are none. */
    method StartReady(ready: seq<(Instance, Host)>, name: string, bytes: int, target: Instance, created: Host, ghost matches: set<Instance>,
                      ops: seq<OpInfo>, ghost first: Snap) returns (o: Outcome)
      requires Valid() && Listed(ops, running) && created.shares == [] && created.capacity == MIN_INSTANCE
      requires Elapses(first, Now()) && Exclusive(first.running) && Listed(ops, first.running)
      requires forall p | p in ready :: p.0 in first.instances && p.0 in matches && first.instances[p.0] == p.1 && ValidInstance(p.0)
                                        && Eligible(p.1, p.0, ops, feature)
      modifies this
      ensures old(ended) <= ended
      ensures Valid() && (orderly ==> old(orderly)) && AtMostOne(old(started), started, o, running)
      ensures !o.Started? ==> orderly == old(orderly)
      ensures o.Started? || o.Aborted? || o.Failed?
      ensures o.Aborted? ==> BusyInstance(target, ops)
      ensures o.Started? && o.op.kind.InstanceCreate? ==> ready == []
      ensures willing && Segment(name) && NameIsNew(first.instances, name) && ready != [] ==> o.Started? && !o.op.kind.InstanceCreate?
      ensures willing && IsFreeName(target, first.instances, ops) && ready == [] ==> o.Started? && o.op.kind.InstanceCreate?
      ensures o.Started? ==>
                if o.op.kind.InstanceCreate? then o.op.instance == target && o.op.bytes == TB && Awaits(waiting, o.op, name, bytes, true)
                else o.op.instance in first.instances && o.op.instance in matches && !BusyInstance(o.op.instance, ops)
                     && IsCreateStart(o.op, first.instances[o.op.instance], waiting, name, bytes, feature)
      ensures o.Started? && o.op.kind.InstanceCreate? && old(orderly) && NewHostIsFair(target, created, bytes, first.waiting, feature) ==> orderly
      ensures o.Started? && !o.op.kind.InstanceCreate? && old(orderly) ==>
                (orderly <==> o.op.instance !in first.waiting && SizeOk(bytes, Count(first.instances[o.op.instance], feature)))
      ensures Serves(first, Now(), if o.Started? then {o.op.instance} else {})
    {
      ghost var middle := Now();
      if |ready| == 0 {
        NewStaysNew(target, ops, first, middle);
        o := StartNew(target, created, name, bytes, ops);
        ElapsesServes(first, middle, Now(), if o.Started? then {o.op.instance} else {});
      } else {
        var k: nat :| k < |ready|;
        var (i, h) := ready[k];
        assert ready[k] in ready;
        o := StartOn(i, h, name, bytes, ops, first);
      }
    }

    /** The start on the instance that was picked, which has been idle since the operations were listed. */
    method StartOn(i: Instance, h: Host, name: string, bytes: int, ops: seq<OpInfo>, ghost first: Snap) returns (o: Outcome)
      requires Valid() && Listed(ops, running) && Elapses(first, Now())
      requires Exclusive(first.running) && Listed(ops, first.running)
      requires i in first.instances && first.instances[i] == h && ValidInstance(i) && !BusyInstance(i, ops) && |h.shares| < Count(h, feature)
      modifies this
      ensures old(ended) <= ended
      ensures Valid() && (orderly ==> old(orderly)) && AtMostOne(old(started), started, o, running)
      ensures !o.Started? ==> orderly == old(orderly)
      ensures o.Started? || o.Aborted? || o.Failed?
      ensures o.Started? ==> o.op.instance == i && !o.op.kind.InstanceCreate? && IsCreateStart(o.op, h, waiting, name, bytes, feature)
      ensures !o.Aborted?
      ensures willing && Segment(name) && (forall x | x in h.shares :: x.name != name) ==> o.Started?
      ensures o.Started? && old(orderly) ==> (orderly <==> i !in first.waiting && SizeOk(bytes, Count(h, feature)))
      ensures Serves(first, Now(), if o.Started? then {o.op.instance} else {})
    {
      ghost var middle := Now();
      FreeInstance(i, ops, first.running);
      FreeInstance(i, ops, running);
      assert ElapsesAt(i, first, middle) && Idle(i, first.running);
      var now := ReadIdle(i, ops);
      ElapsesTransitive(first, middle, Now());
      middle := Now();
      var used := TotalCapacity(now.value.shares);
      FreeIsNotBusy(i, name, ops);
      TakesNew(i, h, name, middle);
      o := StartCreate(i, h, name, bytes, used, ops);
      ElapsesServes(first, middle, Now(), if o.Started? then {o.op.instance} else {});
    }

    /**
     * setupEligibleInstanceAndStartWorkflow: the first phase of a create. The share goes to an eligible
     * instance, which is grown first if need be. A new instance is created only if none that matches has
     * room or may soon have it; `at` are the instances at the moment they are listed. A share of this name
     * counts as there already only when the wanted protocol is the one that a listing of shares reports,
     * which is none.
     */
    method SetupEligibleInstanceAndStartWorkflow(name: string, bytes: int, protocol: string, target: Instance, created: Host,
                                                 matches: set<Instance>, regions: set<string>)
      returns (o: Outcome, ghost at: map<Instance, Host>)
      requires Valid() && created.shares == [] && created.capacity == MIN_INSTANCE
      modifies this
      ensures old(ended) <= ended
      ensures Valid() && (orderly ==> old(orderly)) && AtMostOne(old(started), started, o, running)
      ensures !o.Started? ==> orderly == old(orderly)
      ensures o.Started? || o.Exists? || o.Aborted? || o.Failed?
      ensures o.Exists? ==> protocol == "" && HoldsName(at, o.share.parent, name, regions) && o.share.name == name && at == instances
      ensures CreateRuns(old(running), name) ==> o.Aborted?
      ensures !CreateRuns(old(running), name) && protocol == "" && (exists i :: HoldsName(at, i, name, regions)) ==> o.Exists?
      ensures o.Aborted? && ValidInstance(target) ==>
                || CreateRuns(old(running), name) || SomeComesUp(at, matches, old(running))
                || !Idle(target, old(running)) || target == Mimicked()
      ensures willing && !CreateRuns(old(running), name) ==> Answers(o, DueAt(at, matches, target, name, old(running), feature))
      ensures forall i | Idle(i, old(running)) ::
                (i in at <==> i in old(instances)) && (i in at ==> at[i] == old(instances)[i].(state := at[i].state))
      ensures o.Started? ==>
                if o.op.kind.InstanceCreate? then
                  && o.op.instance == target && o.op.bytes == TB && Awaits(waiting, o.op, name, bytes, true)
                  && forall i | i in at && i in matches :: NoRoom(at[i], i, old(running), feature)
                else
                  && Idle(o.op.instance, old(running)) && o.op.instance in old(instances) && o.op.instance in matches
                  && IsCreateStart(o.op, old(instances)[o.op.instance], waiting, name, bytes, feature)
      ensures o.Started? && o.op.kind.InstanceCreate? && old(orderly) && NewHostIsFair(target, created, bytes, old(waiting), feature) ==> orderly
      ensures o.Started? && !o.op.kind.InstanceCreate? && old(orderly) ==>
                (orderly <==> o.op.instance !in old(waiting) && SizeOk(bytes, Count(old(instances)[o.op.instance], feature)))
      ensures Serves(old(Now()), Now(), if o.Started? then {o.op.instance} else {})
    {
      at := instances;
      var ops := ListRunningOps();
      CreateIsListed(name, ops, running);
      if exists op :: op in ops && op.kind.ShareCreate? && Contains(op.target, name) {
        o := Aborted;
        NothingServes(Now());
      } else {
        o, at := SetupNamed(name, bytes, protocol, target, created, matches, regions, ops);
      }
    }

    /** The first phase for a share that is not being created. */
    method SetupNamed(name: string, bytes: int, protocol: string, target: Instance, created: Host, matches: set<Instance>, regions: set<string>,
                      ops: seq<OpInfo>) returns (o: Outcome, ghost at: map<Instance, Host>)
      requires Valid() && created.shares == [] && created.capacity == MIN_INSTANCE
      requires Listed(ops, running) && forall op | op in ops :: exists r :: r in running && r.Info() == op
      modifies this
      ensures old(ended) <= ended
      ensures Valid() && (orderly ==> old(orderly)) && AtMostOne(old(started), started, o, running)
      ensures !o.Started? ==> orderly == old(orderly)
      ensures o.Started? || o.Exists? || o.Aborted? || o.Failed?
      ensures o.Exists? ==> protocol == "" && HoldsName(at, o.share.parent, name, regions) && o.share.name == name && at == instances
      ensures protocol == "" && (exists i :: HoldsName(at, i, name, regions)) ==> o.Exists?
      ensures o.Aborted? && ValidInstance(target) ==> SomeComesUp(at, matches, old(running)) || !Idle(target, old(running)) || target == Mimicked()
      ensures willing ==> Answers(o, DueAt(at, matches, target, name, old(running), feature))
      ensures forall i | Idle(i, old(running)) ::
                (i in at <==> i in old(instances)) && (i in at ==> at[i] == old(instances)[i].(state := at[i].state))
      ensures o.Started? ==>
                if o.op.kind.InstanceCreate? then
                  && o.op.instance == target && o.op.bytes == TB && Awaits(waiting, o.op, name, bytes, true)
                  && forall i | i in at && i in matches :: NoRoom(at[i], i, old(running), feature)
                else
                  && Idle(o.op.instance, old(running)) && o.op.instance in old(instances) && o.op.instance in matches
                  && IsCreateStart(o.op, old(instances)[o.op.instance], waiting, name, bytes, feature)
      ensures o.Started? && o.op.kind.InstanceCreate? && old(orderly) && NewHostIsFair(target, created, bytes, old(waiting), feature) ==> orderly
      ensures o.Started? && !o.op.kind.InstanceCreate? && old(orderly) ==>
                (orderly <==> o.op.instance !in old(waiting) && SizeOk(bytes, Count(old(instances)[o.op.instance], feature)))
      ensures Serves(old(Now()), Now(), if o.Started? then {o.op.instance} else {})
    {
      Meanwhile();
      at := instances;
      ghost var listed := Now();
      var found := FindShare(name, regions);
      FoundIff(at, name, regions, found);
      AtIsThen(old(Now()), listed);
      if found.Some? && protocol == "" {
        o := Exists(found.value);
        ElapsesServes(old(Now()), listed, listed, {});
      } else {
        o := StartListed(name, bytes, target, created, matches, ops, old(Now()));
      }
    }

    /** The start, with what it means for the moment `first` when the operations were listed. */
    method StartListed(name: string, bytes: int, target: Instance, created: Host, matches: set<Instance>, ops: seq<OpInfo>, ghost first: Snap)
      returns (o: Outcome)
      requires Valid() && Listed(ops, running) && created.shares == [] && created.capacity == MIN_INSTANCE
      requires Elapses(first, Now()) && Exclusive(first.running) && Listed(ops, first.running)
      requires forall op | op in ops :: exists r :: r in first.running && r.Info() == op
      modifies this
      ensures old(ended) <= ended
      ensures Valid() && (orderly ==> old(orderly)) && AtMostOne(old(started), started, o, running)
      ensures !o.Started? ==> orderly == old(orderly)
      ensures o.Started? || o.Aborted? || o.Failed?
      ensures o.Aborted? && ValidInstance(target) ==>
                SomeComesUp(old(instances), matches, first.running) || !Idle(target, first.running) || target == Mimicked()
      ensures willing ==> Answers(o, DueAt(old(instances), matches, target, name, first.running, feature))
      ensures o.Started? ==>
                if o.op.kind.InstanceCreate? then
                  && o.op.instance == target && o.op.bytes == TB && Awaits(waiting, o.op, name, bytes, true)
                  && forall i | i in old(instances) && i in matches :: NoRoom(old(instances)[i], i, first.running, feature)
                else
                  && Idle(o.op.instance, first.running) && o.op.instance in first.instances && o.op.instance in matches
                  && IsCreateStart(o.op, first.instances[o.op.instance], waiting, name, bytes, feature)
      ensures o.Started? && o.op.kind.InstanceCreate? && old(orderly) && NewHostIsFair(target, created, bytes, first.waiting, feature) ==> orderly
      ensures o.Started? && !o.op.kind.InstanceCreate? && old(orderly) ==>
                (orderly <==> o.op.instance !in first.waiting && SizeOk(bytes, Count(first.instances[o.op.instance], feature)))
      ensures Serves(first, Now(), if o.Started? then {o.op.instance} else {})
    {
      ghost var listed := Now();
      RoomAsListed(listed.instances, matches, target, name, ops, first.running, feature);
      o := StartSomewhere(name, bytes, target, created, matches, ops);
      ElapsesServes(first, listed, Now(), if o.Started? then {o.op.instance} else {});
      if o.Started? && o.op.kind.InstanceCreate? {
        StillNobodyWaits(target, first, listed);
        NoneHasRoom(listed.instances, matches, ops, first.running, feature);
      } else if o.Started? {
        SeenFrom(o.op, first, listed, waiting, name, bytes, ops, feature);
      }
    }
  }
}
