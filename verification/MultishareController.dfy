/**
 * The multishare controller: CSI calls that go to the ops manager in two phases, with waiting in
 * between, while others are served.
 */
module MultishareController {
  import opened Wrappers
  import opened Uris
  import opened Capacity
  import opened Operations
  import opened Room
  import opened Fleet
  import opened OpsManager

  datatype Reply = Done | Retry | Invalid | NotFound

  /** A call that another request may make. */
  datatype Call =
    | Setup(name: string, bytes: int, protocol: string, target: Instance, created: Host, matches: set<Instance>, regions: set<string>)
    | CreateShare(share: Share, bytes: int)
    | Expand(share: Share, bytes: int, seen: Seen)
    | ExpandShare(share: Share, bytes: int)
    | DeleteShare(share: Share)
    | DeleteOrShrink(instance: Instance)
    | GiveUp(instance: Instance, id: nat)

  /** What the entry points ask of their callers. */
  predicate Admissible(c: Call) {
    && (c.Setup? ==> c.created.shares == [] && c.created.capacity == MIN_INSTANCE)
    && (c.Expand? ==> c.seen.capacity < c.bytes)
  }

  /** The call does not concern this instance. */
  predicate Avoids(c: Call, i: Instance) {
    match c
    case Setup(_, _, _, target, _, matches, _) => target != i && i !in matches
    case CreateShare(s, _) => s.parent != i
    case Expand(s, _, _) => s.parent != i
    case ExpandShare(s, _) => s.parent != i
    case DeleteShare(s) => s.parent != i
    case DeleteOrShrink(j) => j != i
    case GiveUp(j, _) => j != i
  }

  /** The second phase of a request whose instance operation is through. */
  predicate IsSecondPhase(m: Manager, s: Share, bytes: int, create: bool)
    reads m
  {
    HasTicket(m.waiting, s, bytes, create) && m.waiting[s.parent].opId !in m.failed
    && forall r | r in m.running :: r.id != m.waiting[s.parent].opId
  }

  /**
   * The call is that of an orderly request: its second phase follows its own first; no first phase touches
   * an instance somebody waits for; sizes are within limits; and what was read before still holds.
   */
  predicate IsOrderly(m: Manager, c: Call)
    reads m
  {
    match c
    case Setup(_, bytes, _, target, created, matches, _) =>
      && NewHostIsFair(target, created, bytes, m.waiting, m.feature)
      && forall i | i in matches && i in m.instances :: i !in m.waiting && SizeOk(bytes, Count(m.instances[i], m.feature))
    case CreateShare(s, bytes) => IsSecondPhase(m, s, bytes, true)
    case Expand(s, bytes, seen) =>
      s.parent in m.instances && ExpandIsFair(s, bytes, seen, m.instances[s.parent], m.waiting, m.feature)
    case ExpandShare(s, bytes) => IsSecondPhase(m, s, bytes, false)
    case DeleteShare(_) => true
    case DeleteOrShrink(i) => i !in m.waiting
    case GiveUp(_, _) => true
  }

  /** Serves one call. An orderly call keeps the run orderly, and an instance it avoids is left alone. */
  method Serve(m: Manager, c: Call)
    requires m.Valid() && Admissible(c)
    modifies m
    ensures old(m.ended) <= m.ended
    ensures m.Valid() && (m.orderly ==> old(m.orderly))
    ensures old(IsOrderly(m, c)) ==> m.orderly == old(m.orderly)
    ensures forall i | Avoids(c, i) :: LeavesAlone(i, old(m.Now()), m.Now())
  {
    match c {
      case Setup(name, bytes, protocol, target, created, matches, regions) =>
        var o;
        ghost var at;
        o, at := m.SetupEligibleInstanceAndStartWorkflow(name, bytes, protocol, target, created, matches, regions);
      case CreateShare(s, bytes) =>
        var o := m.StartShareCreateWorkflowSafe(s, bytes);
      case Expand(s, bytes, seen) =>
        var o := m.CheckAndStartInstanceOrShareExpandWorkflow(s, bytes, seen);
      case ExpandShare(s, bytes) =>
        var o := m.StartShareExpandWorkflowSafe(s, bytes);
      case DeleteShare(s) =>
        var o := m.CheckAndStartShareDeleteWorkflow(s);
      case DeleteOrShrink(i) =>
        var o := m.CheckAndStartInstanceDeleteOrShrinkWorkflow(i);
      case GiveUp(i, id) =>
        m.Abandon(i, id);
    }
  }

  /**
   * Any number of calls by anybody. When they are careful, each is that of an orderly request and avoids
   * the instance given, which is then left alone.
   */
  method Others(m: Manager, careful: bool, mine: Option<Instance>)
    requires m.Valid()
    modifies m
    ensures old(m.ended) <= m.ended
    ensures m.Valid() && (m.orderly ==> old(m.orderly))
    ensures careful ==> m.orderly == old(m.orderly)
    ensures careful && mine.Some? ==> LeavesAlone(mine.value, old(m.Now()), m.Now())
  {
    var calls: nat := *;
    while calls > 0
      invariant m.Valid() && (m.orderly ==> old(m.orderly)) && old(m.ended) <= m.ended
      invariant careful ==> m.orderly == old(m.orderly)
      invariant careful && mine.Some? ==> LeavesAlone(mine.value, old(m.Now()), m.Now())
    {
      var c: Call := *;
      ghost var before := m.Now();
      m.Meanwhile();
      ghost var middle := m.Now();
      if mine.Some? { MeanwhileLeavesAlone(mine.value, old(m.Now()), before, middle); }
      if Admissible(c) && (careful ==> IsOrderly(m, c) && (mine.Some? ==> Avoids(c, mine.value))) {
        Serve(m, c);
        if careful && mine.Some? { LeavesAloneTransitive(mine.value, old(m.Now()), middle, m.Now()); }
      }
      calls := calls - 1;
    }
  }

  lemma MeanwhileLeavesAlone(i: Instance, a: Snap, b: Snap, c: Snap)
    requires Elapses(b, c)
    ensures LeavesAlone(i, b, c)
    ensures LeavesAlone(i, a, b) ==> LeavesAlone(i, a, c)
  {
    ElapsesServes(b, c, c, {});
    if LeavesAlone(i, a, b) { LeavesAloneTransitive(i, a, b, c); }
  }

  /**
   * Any run of the manager, from nothing on. Whatever the interleaving, a running instance operation is
   * alone on its instance and that instance's shares, no share has two, and an instance being deleted has
   * no shares; and as long as the run is orderly, every instance holds its shares.
   */
  method Run(feature: bool, willing: bool) returns (m: Manager)
    ensures m.Valid()
    ensures forall j, k | 0 <= j < k < |m.running| :: m.running[j].id != m.running[k].id && !Conflict(m.running[j], m.running[k])
    ensures forall r | r in m.running && r.kind.InstanceDelete? && r.instance in m.instances :: m.instances[r.instance].shares == []
    ensures m.orderly ==>
              forall i | i in m.instances ::
                var h := m.instances[i];
                0 <= Sum(Capacities(h.shares)) <= h.capacity <= MAX_INSTANCE && |h.shares| <= Count(h, feature)
  {
    m := new Manager(feature, willing);
    Others(m, false, None);
    if m.orderly {
      forall i | i in m.instances
        ensures var h := m.instances[i];
                0 <= Sum(Capacities(h.shares)) <= h.capacity <= MAX_INSTANCE && |h.shares| <= Count(h, feature)
      {
        assert HostOk(i, m.instances[i], m.running, TicketOf(m.waiting, i), feature);
        RoomyMeans(i, m.instances[i], m.running, TicketOf(m.waiting, i), Count(m.instances[i], feature));
      }
    }
  }

  // The size of a new share.

  /** The size CreateVolume checks. */
  function CheckedSize(feature: bool, range: Range, limit: int): Result<int>
    requires MIN_SHARE <= limit
  {
    ShareRequestCapacity(range, if feature then CONFIGURABLE_MIN_SHARE else MIN_SHARE, if feature then limit else MAX_SHARE)
  }

  /** The size generateNewShare gives the share: worked out again, with other bounds. */
  function CreatedSize(range: Range): Result<int> {
    ShareRequestCapacity(range, CONFIGURABLE_MIN_SHARE, MAX_SHARE)
  }

  /**
   * The share has the size that was checked, except when no size was asked for and the share count is
   * not configurable: then the smallest size is checked, and a smaller one is created.
   */
  lemma CreatedSizeIsChecked(feature: bool, range: Range, limit: int)
    requires MIN_SHARE <= limit <= MAX_SHARE && CheckedSize(feature, range, limit).Ok?
    ensures CreatedSize(range).Ok?
    ensures CreatedSize(range).value == CheckedSize(feature, range, limit).value <==> feature || range.Range?
    ensures CONFIGURABLE_MIN_SHARE <= CreatedSize(range).value <= CheckedSize(feature, range, limit).value <= (if feature then limit else MAX_SHARE)
  {
  }

  // What a call may be answered with.

  /** The instance is there and has the share, of at least this size. */
  ghost predicate Holds(instances: map<Instance, Host>, s: Share, bytes: int) {
    s.parent in instances && exists x :: x in instances[s.parent].shares && x.name == s.name && x.capacity >= bytes
  }

  /** The share is there, and nothing of its name is smaller than this. */
  ghost predicate HoldsEach(instances: map<Instance, Host>, s: Share, bytes: int) {
    HasShare(instances, s) && forall x | x in instances[s.parent].shares && x.name == s.name :: x.capacity >= bytes
  }

  ghost predicate HasShare(instances: map<Instance, Host>, s: Share) {
    s.parent in instances && exists x :: x in instances[s.parent].shares && x.name == s.name
  }

  /** Waits for an operation while others are served: good if it has ended well. Waiting may time out. */
  method WaitOnWorkflow(m: Manager, op: Operation, careful: bool, mine: Option<Instance>) returns (ok: bool)
    requires m.Valid()
    modifies m
    ensures old(m.ended) <= m.ended
    ensures m.Valid() && (m.orderly ==> old(m.orderly))
    ensures ok ==> IsOver(op.id, m.Now()) && exists k :: |old(m.ended)| <= k < |m.ended| && m.ended[k] == (op, true)
    ensures careful ==> m.orderly == old(m.orderly)
    ensures careful && mine.Some? ==> LeavesAlone(mine.value, old(m.Now()), m.Now())
  {
    var before := |m.ended|;
    Others(m, careful, mine);
    ok := op.id !in m.failed && (forall r | r in m.running :: r.id != op.id) && (op, true) in m.ended[before..];
    if ok {
      var k :| 0 <= k < |m.ended[before..]| && m.ended[before..][k] == (op, true);
      assert m.ended[before + k] == (op, true);
    }
  }

  /** The same for an operation that was found in the list. */
  method WaitOnListed(m: Manager, info: OpInfo, careful: bool, mine: Option<Instance>) returns (ok: bool)
    requires m.Valid()
    modifies m
    ensures old(m.ended) <= m.ended
    ensures m.Valid() && (m.orderly ==> old(m.orderly))
    ensures ok ==> EndedWell(info.kind, info.target, |old(m.ended)|, m.ended)
    ensures careful ==> m.orderly == old(m.orderly)
    ensures careful && mine.Some? ==> LeavesAlone(mine.value, old(m.Now()), m.Now())
  {
    var before := |m.ended|;
    Others(m, careful, mine);
    ok := exists e :: e in m.ended[before..] && e.0.Info() == info && e.1;
    if ok {
      var e :| e in m.ended[before..] && e.0.Info() == info && e.1;
      var k :| 0 <= k < |m.ended[before..]| && m.ended[before..][k] == e;
      assert m.ended[before + k] == e;
    }
  }

  /** What follows a first phase: wait, and create or grow the share if that is still to be done. */
  method SecondPhase(m: Manager, op: Operation, name: string, bytes: int, create: bool, careful: bool) returns (ok: bool)
    requires m.Valid() && op in m.running
    requires op.OnInstance() ==> Awaits(m.waiting, op, name, bytes, create)
    requires !op.OnInstance() ==> op.kind == ShareKind(create) && op.share == name && op.bytes == bytes
    modifies m
    ensures old(m.ended) <= m.ended
    ensures m.Valid() && (m.orderly ==> old(m.orderly))
    ensures careful ==> m.orderly == old(m.orderly)
    ensures ok ==> ShareDone(ShareKind(create), Share(op.instance, name), bytes, |old(m.ended)|, m.ended)
  {
    ok := WaitOnWorkflow(m, op, careful, Some(op.instance));
    if !ok {
      m.Abandon(op.instance, op.id);
    } else if op.OnInstance() {
      ok := SecondOnly(m, Share(op.instance, name), bytes, create, careful);
    }
  }

  function ShareKind(create: bool): Kind {
    if create then ShareCreate else ShareUpdate
  }

  /** The operation on the share, to this size, has ended well since. */
  ghost predicate ShareDone(kind: Kind, s: Share, bytes: int, since: nat, ended: seq<(Operation, bool)>) {
    exists k :: since <= k < |ended| && ended[k].1 && ended[k].0.kind == kind
                && ended[k].0.instance == s.parent && ended[k].0.share == s.name && ended[k].0.bytes == bytes
  }

  lemma DoneSince(kind: Kind, s: Share, bytes: int, from: nat, since: nat, ended: seq<(Operation, bool)>)
    requires since <= from
    ensures ShareDone(kind, s, bytes, from, ended) ==> ShareDone(kind, s, bytes, since, ended)
  {
  }

  /** The second phase alone. */
  method SecondOnly(m: Manager, s: Share, bytes: int, create: bool, careful: bool) returns (ok: bool)
    requires m.Valid()
    modifies m
    ensures old(m.ended) <= m.ended
    ensures m.Valid() && (m.orderly ==> old(m.orderly))
    ensures careful && HasTicket(old(m.waiting), s, bytes, create) && IsOver(old(m.waiting)[s.parent].opId, old(m.Now())) ==>
              m.orderly == old(m.orderly)
    ensures ok ==> ShareDone(ShareKind(create), s, bytes, |old(m.ended)|, m.ended)
  {
    var o;
    if create {
      o := m.StartShareCreateWorkflowSafe(s, bytes);
    } else {
      o := m.StartShareExpandWorkflowSafe(s, bytes);
    }
    ok := false;
    if o.Started? {
      ok := WaitOnWorkflow(m, o.op, careful, None);
    }
  }

  /** The instances that match belong to a StorageClass whose shares are no larger than this. */
  ghost predicate ClassFits(m: Manager, matches: set<Instance>, limit: int)
    reads m
  {
    forall i | i in matches && i in m.instances :: LimitFits(m.instances[i], limit, m.feature)
  }

  /** As many shares of this size as the instance takes fit the largest instance. */
  predicate LimitFits(h: Host, limit: int, feature: bool) {
    Count(h, feature) > 0 && limit * Count(h, feature) <= MAX_INSTANCE
  }

  /** A new volume's request is in order: it has a name, a parameter that is known, and asks for whole GiB within bounds. */
  ghost predicate IsRequest(feature: bool, name: string, range: Range, p: VolumeSize) {
    && name != "" && (p == Absent || (feature && IsSizeParameter(p)))
    && exists c :: c % GB == 0 && AsksFor(range, if feature then 10 * GB else 100 * GB, if p.Size? then p.bytes else TB, c)
  }

  lemma RequestIsChecked(feature: bool, name: string, range: Range, p: VolumeSize)
    ensures var limits := ParseMaxVolumeSize(feature, p);
            IsRequest(feature, name, range, p) <==>
              name != "" && limits.Ok? && CheckedSize(feature, range, limits.value.1).Ok? && CheckedSize(feature, range, limits.value.1).value % GB == 0
  {
    LimitsExact(feature, p);
    if p == Absent || (feature && IsSizeParameter(p)) {
      RequestExact(range, if feature then 10 * GB else 100 * GB, if p.Size? then p.bytes else TB);
    }
  }

  /**
   * CreateVolume: the first phase, and after an instance operation the second. It keeps the run orderly
   * among careful others, on instances of its StorageClass that nobody waits for. Done means that the share is
   * there, and that it was there already or its creation has ended well meanwhile.
   */
  method CreateVolume(m: Manager, name: string, range: Range, p: VolumeSize, protocol: string, target: Instance, stepGb: nat,
                      matches: set<Instance>, regions: set<string>, inUse: bool, careful: bool)
    returns (r: Reply)
    requires m.Valid()
    modifies m
    ensures m.Valid() && (m.orderly ==> old(m.orderly))
    ensures careful && old(ClassFits(m, matches, MaxSharePerVolume(m.feature, p))) && (stepGb == 0 || StepOk(stepGb))
            && target !in old(m.waiting) && (forall i | i in matches :: i !in old(m.waiting)) ==>
              m.orderly == old(m.orderly)
    ensures r == Invalid <==> !IsRequest(m.feature, name, range, p)
    ensures r == Done ==>
              exists i :: HasShare(m.instances, Share(i, name))
                          && ((protocol == "" && i.location in regions)
                              || ShareDone(ShareCreate, Share(i, name), CreatedSize(range).value, |old(m.ended)|, m.ended))
    ensures r != NotFound
    ensures IsRequest(m.feature, name, range, p) && inUse && old(IsThere(m, name, protocol, regions)) ==> r == Done
  {
    RequestIsChecked(m.feature, name, range, p);
    var limits := ParseMaxVolumeSize(m.feature, p);
    if name == "" || limits.Err? {
      return Invalid;
    }
    var checked := CheckedSize(m.feature, range, limits.value.1);
    if checked.Err? || checked.value % GB != 0 {
      return Invalid;
    }
    CreatedSizeIsChecked(m.feature, range, limits.value.1);
    r := CreateSized(m, name, CreatedSize(range).value, limits.value.0, p, protocol, target, stepGb, matches, regions, inUse, careful);
  }

  /** The creation, once the request has been found in order. */
  method CreateSized(m: Manager, name: string, bytes: int, maxShares: int, ghost p: VolumeSize, protocol: string, target: Instance, stepGb: nat,
                     matches: set<Instance>, regions: set<string>, inUse: bool, careful: bool)
    returns (r: Reply)
    requires m.Valid()
    requires ParseMaxVolumeSize(m.feature, p).Ok? && maxShares == ParseMaxVolumeSize(m.feature, p).value.0
    requires 0 <= bytes <= MaxSharePerVolume(m.feature, p)
    modifies m
    ensures m.Valid() && (m.orderly ==> old(m.orderly))
    ensures careful && old(ClassFits(m, matches, MaxSharePerVolume(m.feature, p))) && (stepGb == 0 || StepOk(stepGb))
            && target !in old(m.waiting) && (forall i | i in matches :: i !in old(m.waiting)) ==>
              m.orderly == old(m.orderly)
    ensures r == Done || r == Retry
    ensures r == Done ==>
              exists i :: HasShare(m.instances, Share(i, name))
                          && ((protocol == "" && i.location in regions)
                              || ShareDone(ShareCreate, Share(i, name), bytes, |old(m.ended)|, m.ended))
    ensures inUse && old(IsThere(m, name, protocol, regions)) ==> r == Done
  {
    var created := Host(MIN_INSTANCE, stepGb, maxShares, "CREATING", []);
    if ClassFits(m, matches, MaxSharePerVolume(m.feature, p)) { SizesAreOk(m, matches, bytes, p, created); }
    var o;
    ghost var at;
    o, at := m.SetupEligibleInstanceAndStartWorkflow(name, bytes, protocol, target, created, matches, regions);
    if old(IsThere(m, name, protocol, regions)) { ThereStays(old(m.instances), at, name, regions, old(m.running)); }
    r := Retry;
    if o.Exists? {
      r := ReadyShare(m, o.share, inUse);
    } else if o.Started? {
      ghost var before := |m.ended|;
      var ok := SecondPhase(m, o.op, name, bytes, true, careful);
      DoneSince(ShareCreate, Share(o.op.instance, name), bytes, before, |old(m.ended)|, m.ended);
      if ok {
        r := ReadyShare(m, Share(o.op.instance, name), inUse);
      }
    }
  }

  /** The share is on an idle instance in these regions, none of its name is being created, and the volume is no copy. */
  ghost predicate IsThere(m: Manager, name: string, protocol: string, regions: set<string>)
    reads m
  {
    protocol == "" && !CreateRuns(m.running, name) && exists i :: Idle(i, m.running) && HoldsName(m.instances, i, name, regions)
  }

  lemma ThereStays(before: map<Instance, Host>, at: map<Instance, Host>, name: string, regions: set<string>, running: seq<Operation>)
    requires exists i :: Idle(i, running) && HoldsName(before, i, name, regions)
    requires forall i | Idle(i, running) :: (i in at <==> i in before) && (i in at ==> at[i] == before[i].(state := at[i].state))
    ensures exists i :: HoldsName(at, i, name, regions)
  {
    var i :| Idle(i, running) && HoldsName(before, i, name, regions);
    assert HoldsName(at, i, name, regions);
  }

  /** getShareAndGenerateCSICreateVolumeResponse: the share is there, and reported as in use. */
  method ReadyShare(m: Manager, s: Share, inUse: bool) returns (r: Reply)
    ensures r == if HasShare(m.instances, s) && inUse then Done else Retry
  {
    if s.parent in m.instances && (exists x :: x in m.instances[s.parent].shares && x.name == s.name) && inUse {
      return Done;
    }
    return Retry;
  }

  lemma SizesAreOk(m: Manager, matches: set<Instance>, bytes: int, p: VolumeSize, created: Host)
    requires ParseMaxVolumeSize(m.feature, p).Ok? && created.maxShares == ParseMaxVolumeSize(m.feature, p).value.0
    requires 0 <= bytes <= MaxSharePerVolume(m.feature, p) && ClassFits(m, matches, MaxSharePerVolume(m.feature, p))
    ensures SizeOk(bytes, Count(created, m.feature)) && bytes <= MIN_INSTANCE
    ensures forall i | i in matches && i in m.instances :: SizeOk(bytes, Count(m.instances[i], m.feature))
  {
    var limit := MaxSharePerVolume(m.feature, p);
    CountTimesSizeIsMax(m.feature, p);
    Scale(bytes, limit, Count(created, m.feature));
    forall i | i in matches && i in m.instances ensures SizeOk(bytes, Count(m.instances[i], m.feature)) {
      Scale(bytes, limit, Count(m.instances[i], m.feature));
    }
  }

  /**
   * GetShare: the share's size, and then its instance, in two calls. Of an instance that is idle both are
   * what they are afterwards.
   */
  method GetShare(m: Manager, s: Share) returns (seen: Option<Seen>)
    requires m.Valid()
    modifies m
    ensures old(m.ended) <= m.ended
    ensures m.Valid() && m.orderly == old(m.orderly) && Elapses(old(m.Now()), m.Now())
    ensures Idle(s.parent, old(m.running)) && seen.Some? ==> Idle(s.parent, m.running) && IsReading(m.Now(), s, seen.value)
    ensures seen.Some? ==> exists x :: IsRecord(old(m.instances), s, x) && x.capacity == seen.value.capacity
    ensures seen.None? ==> !HasShare(old(m.instances), s) || WasRemoved(s.parent, |old(m.ended)|, m.ended)
    ensures Idle(s.parent, old(m.running)) ==> (seen.Some? <==> HasShare(old(m.instances), s))
  {
    if s.parent !in m.instances {
      return None;
    }
    var h := m.instances[s.parent];
    if x :| x in h.shares && x.name == s.name {
      assert IsRecord(m.instances, s, x);
      m.Meanwhile();
      assert ElapsesAt(s.parent, old(m.Now()), m.Now());
      if s.parent !in m.instances {
        return None;
      }
      return Some(Seen(x.capacity, m.instances[s.parent].capacity, m.instances[s.parent].stepGb));
    }
    return None;
  }

  ghost predicate IsRecord(instances: map<Instance, Host>, s: Share, x: ShareRecord) {
    s.parent in instances && x in instances[s.parent].shares && x.name == s.name
  }

  /** The reading is what there is now. */
  ghost predicate IsReading(c: Snap, s: Share, seen: Seen) {
    && s.parent in c.instances && seen.parentCapacity == c.instances[s.parent].capacity
    && exists x :: x in c.instances[s.parent].shares && x.name == s.name && x.capacity == seen.capacity
  }

  /** What was read of an idle instance that is left alone still holds. */
  lemma ReadingStays(a: Snap, b: Snap, c: Snap, s: Share, seen: Seen, limit: int, feature: bool)
    requires Elapses(a, b) && LeavesAlone(s.parent, b, c)
    requires Idle(s.parent, a.running) && Idle(s.parent, b.running) && s.parent !in a.waiting && IsReading(b, s, seen)
    requires s.parent in a.instances ==> LimitFits(a.instances[s.parent], limit, feature)
    ensures IsReading(c, s, seen) && s.parent !in c.waiting && LimitFits(c.instances[s.parent], limit, feature)
  {
    assert ElapsesAt(s.parent, a, b);
  }

  /**
   * ControllerExpandVolume: reads the share, then asks the manager, and after an instance operation asks
   * again. It keeps the run orderly among careful others if, when the share is read, its instance is idle
   * and nobody waits for it. Done means that the share was as large when it was read, or that it is now and a
   * growth of it has ended well meanwhile.
   */
  method ExpandVolume(m: Manager, s: Share, range: Range, p: VolumeSize, careful: bool) returns (r: Reply)
    requires m.Valid()
    modifies m
    ensures m.Valid() && (m.orderly ==> old(m.orderly))
    ensures careful && old(LimitFitsHere(m, s, MaxSharePerVolume(m.feature, p))) ==> m.orderly == old(m.orderly)
    ensures r == Invalid <==> !exists c :: ExpandsTo(m.feature, range, p, c)
    ensures r == NotFound ==> !HasShare(old(m.instances), s) || WasRemoved(s.parent, |old(m.ended)|, m.ended)
    ensures r == Done ==>
              forall c | ExpandsTo(m.feature, range, p, c) ::
                || Holds(old(m.instances), s, c)
                || (Holds(m.instances, s, c) && EndedWell(ShareUpdate, ShareUri(s), |old(m.ended)|, m.ended))
    ensures forall c | ExpandsTo(m.feature, range, p, c) ::
              Idle(s.parent, old(m.running)) && !HasShare(old(m.instances), s) ==> r == NotFound
    ensures forall c | ExpandsTo(m.feature, range, p, c) ::
              Idle(s.parent, old(m.running)) && HoldsEach(old(m.instances), s, c) ==> r == Done
  {
    CountTimesSizeIsMax(m.feature, p);
    ExpandIsChecked(m.feature, range, p);
    var limit := if m.feature then MaxSharePerVolume(m.feature, p) else MAX_SHARE;
    var wanted := ShareRequestCapacity(range, CONFIGURABLE_MIN_SHARE, limit);
    if wanted.Err? || wanted.value % GB != 0 {
      r := Invalid;
    } else {
      r := ExpandTo(m, s, wanted.value, p, careful);
    }
  }

  lemma ExpandIsChecked(feature: bool, range: Range, p: VolumeSize)
    ensures var limit := if feature then MaxSharePerVolume(feature, p) else MAX_SHARE;
            && CONFIGURABLE_MIN_SHARE <= limit
            && var wanted := ShareRequestCapacity(range, CONFIGURABLE_MIN_SHARE, limit);
            && (forall c :: ExpandsTo(feature, range, p, c) <==> wanted == Ok(c) && c % GB == 0)
            && (wanted.Ok? ==> ExpandsTo(feature, range, p, wanted.value) || wanted.value % GB != 0)
  {
    CountTimesSizeIsMax(feature, p);
    LimitsExact(feature, p);
    RequestExact(range, CONFIGURABLE_MIN_SHARE, if feature then MaxSharePerVolume(feature, p) else MAX_SHARE);
  }

  /** The expansion, once the request has been found in order. */
  method ExpandTo(m: Manager, s: Share, bytes: int, ghost p: VolumeSize, careful: bool) returns (r: Reply)
    requires m.Valid() && 0 <= bytes <= (if m.feature then MaxSharePerVolume(m.feature, p) else MAX_SHARE)
    modifies m
    ensures m.Valid() && (m.orderly ==> old(m.orderly))
    ensures careful && old(LimitFitsHere(m, s, MaxSharePerVolume(m.feature, p))) ==> m.orderly == old(m.orderly)
    ensures r != Invalid
    ensures r == NotFound ==> !HasShare(old(m.instances), s) || WasRemoved(s.parent, |old(m.ended)|, m.ended)
    ensures r == Done ==>
              || Holds(old(m.instances), s, bytes)
              || (Holds(m.instances, s, bytes) && EndedWell(ShareUpdate, ShareUri(s), |old(m.ended)|, m.ended))
    ensures Idle(s.parent, old(m.running)) && !HasShare(old(m.instances), s) ==> r == NotFound
    ensures Idle(s.parent, old(m.running)) && HoldsEach(old(m.instances), s, bytes) ==> r == Done
  {
    ghost var first, limit := m.ended, MaxSharePerVolume(m.feature, p);
    var seen := GetShare(m, s);
    if seen.None? {
      r := NotFound;
    } else if seen.value.capacity >= bytes {
      r := Done;
    } else {
      ghost var read := m.Now();
      Others(m, careful, Some(s.parent));
      if careful && m.orderly && old(LimitFitsHere(m, s, limit)) {
        ReadingStays(old(m.Now()), read, m.Now(), s, seen.value, limit, m.feature);
        CountTimesSizeIsMax(m.feature, p);
        ReadingIsFair(m, s, bytes, seen.value, limit);
      }
      ghost var before := |m.ended|;
      r := ExpandSeen(m, s, bytes, seen.value, careful);
      EndedSince(ShareUpdate, ShareUri(s), before, |first|, m.ended);
    }
  }

  /** The request is for this size, in whole GiB, from 10 GiB up to the limit of the volume's class. */
  ghost predicate ExpandsTo(feature: bool, range: Range, p: VolumeSize, c: int) {
    c % GB == 0 && AsksFor(range, 10 * GB, if feature && IsSizeParameter(p) then p.bytes else TB, c)
  }

  /** The share's instance is idle, takes shares of this size, and nobody waits for it. */
  ghost predicate LimitFitsHere(m: Manager, s: Share, limit: int)
    reads m
  {
    && s.parent !in m.waiting && Idle(s.parent, m.running)
    && (s.parent in m.instances ==> LimitFits(m.instances[s.parent], limit, m.feature))
  }

  /** The expansion, once the share has been read. */
  method ExpandSeen(m: Manager, s: Share, bytes: int, seen: Seen, careful: bool) returns (r: Reply)
    requires m.Valid() && seen.capacity < bytes
    modifies m
    ensures old(m.ended) <= m.ended
    ensures m.Valid() && (m.orderly ==> old(m.orderly))
    ensures careful && (s.parent in old(m.instances) && ExpandIsFair(s, bytes, seen, old(m.instances)[s.parent], old(m.waiting), m.feature)) ==>
              m.orderly == old(m.orderly)
    ensures r == Done || r == Retry
    ensures r == Done ==> Holds(m.instances, s, bytes) && EndedWell(ShareUpdate, ShareUri(s), |old(m.ended)|, m.ended)
  {
    var o := m.CheckAndStartInstanceOrShareExpandWorkflow(s, bytes, seen);
    ghost var before := |m.ended|;
    var ok := false;
    if o.Joined? {
      ok := WaitOnListed(m, OpInfo(o.id, ShareUpdate, ShareUri(s)), careful, None);
    } else if o.Started? {
      ok := SecondPhase(m, o.op, s.name, bytes, false, careful);
      if ok { DoneIsEndedWell(ShareUpdate, s, bytes, before, m.ended); }
    }
    EndedSince(ShareUpdate, ShareUri(s), before, |old(m.ended)|, m.ended);
    r := Retry;
    if ok && s.parent in m.instances && exists x :: x in m.instances[s.parent].shares && x.name == s.name && x.capacity >= bytes {
      r := Done;
    }
  }

  lemma DoneIsEndedWell(kind: Kind, s: Share, bytes: int, since: nat, ended: seq<(Operation, bool)>)
    requires ShareDone(kind, s, bytes, since, ended) && (kind.ShareCreate? || kind.ShareUpdate? || kind.ShareDelete?)
    ensures EndedWell(kind, ShareUri(s), since, ended)
  {
    var k :| since <= k < |ended| && ended[k].1 && ended[k].0.kind == kind
             && ended[k].0.instance == s.parent && ended[k].0.share == s.name && ended[k].0.bytes == bytes;
    assert ended[k].0.Target() == ShareUri(s);
  }

  lemma EndedSince(kind: Kind, target: string, from: nat, since: nat, ended: seq<(Operation, bool)>)
    requires since <= from
    ensures EndedWell(kind, target, from, ended) ==> EndedWell(kind, target, since, ended)
  {
  }

  lemma EndedStays(kind: Kind, target: string, since: nat, before: seq<(Operation, bool)>, after: seq<(Operation, bool)>)
    requires before <= after
    ensures EndedWell(kind, target, since, before) ==> EndedWell(kind, target, since, after)
    ensures forall i | WasRemoved(i, since, before) :: WasRemoved(i, since, after)
  {
    if EndedWell(kind, target, since, before) {
      var k :| since <= k < |before| && before[k].1 && before[k].0.kind == kind && before[k].0.Target() == target;
      assert after[k] == before[k];
    }
    forall i | WasRemoved(i, since, before) ensures WasRemoved(i, since, after) {
      var k :| since <= k < |before| && Removes(before[k], i);
      assert after[k] == before[k];
    }
  }

  /**
   * DeleteVolume: deletes the share, then sees whether its instance is to go or to shrink. Done means that
   * the share was not there, or was removed with its instance, or its deletion has ended well meanwhile; and that
   * the instance is gone, has nothing to shrink, or its deletion or shrink has ended well meanwhile.
   */
  method DeleteVolume(m: Manager, s: Share, careful: bool) returns (r: Reply)
    requires m.Valid()
    modifies m
    ensures m.Valid() && (m.orderly ==> old(m.orderly))
    ensures careful && s.parent !in old(m.waiting) ==> m.orderly == old(m.orderly)
    ensures r == Done || r == Retry
    ensures r == Done ==>
              || !HasShare(old(m.instances), s) || WasRemoved(s.parent, |old(m.ended)|, m.ended)
              || EndedWell(ShareDelete, ShareUri(s), |old(m.ended)|, m.ended)
    ensures r == Done ==> HostDone(m.instances, s.parent, |old(m.ended)|, m.ended)
    ensures careful && !HasShare(old(m.instances), s) && old(NothingToDo(m, s.parent)) ==> r == Done
  {
    ghost var first := m.ended;
    var seen := GetShare(m, s);
    ghost var read := m.ended;
    assert ElapsesAt(s.parent, old(m.Now()), m.Now());
    Others(m, careful, Some(s.parent));
    var gone := true;
    if seen.Some? {
      gone := DeleteShareAndWait(m, s, careful);
    }
    ghost var deleted := m.ended;
    assert first <= read <= deleted;
    r := Retry;
    if gone {
      r := DeleteOrShrinkAndWait(m, s.parent, careful);
    }
    EndedStays(ShareDelete, ShareUri(s), |first|, read, m.ended);
    EndedStays(ShareDelete, ShareUri(s), |first|, deleted, m.ended);
    HostDoneSince(m.instances, s.parent, |deleted|, |first|, m.ended);
  }

  /** Nothing is left to do for the instance, or its deletion or resize has ended well since. */
  ghost predicate HostDone(instances: map<Instance, Host>, i: Instance, since: nat, ended: seq<(Operation, bool)>) {
    || i !in instances || NothingToShrink(instances[i])
    || EndedWell(InstanceDelete, InstanceUri(i), since, ended) || EndedWell(InstanceUpdate, InstanceUri(i), since, ended)
  }

  lemma HostDoneSince(instances: map<Instance, Host>, i: Instance, from: nat, since: nat, ended: seq<(Operation, bool)>)
    requires since <= from
    ensures HostDone(instances, i, from, ended) ==> HostDone(instances, i, since, ended)
  {
    EndedSince(InstanceDelete, InstanceUri(i), from, since, ended);
    EndedSince(InstanceUpdate, InstanceUri(i), from, since, ended);
  }

  method DeleteShareAndWait(m: Manager, s: Share, careful: bool) returns (ok: bool)
    requires m.Valid()
    modifies m
    ensures old(m.ended) <= m.ended
    ensures m.Valid() && (m.orderly ==> old(m.orderly))
    ensures careful ==> m.orderly == old(m.orderly) && (s.parent in m.waiting ==> s.parent in old(m.waiting))
    ensures ok ==> EndedWell(ShareDelete, ShareUri(s), |old(m.ended)|, m.ended)
  {
    var o := m.CheckAndStartShareDeleteWorkflow(s);
    ghost var before := |m.ended|;
    ok := false;
    if o.Started? {
      ok := WaitOnWorkflow(m, o.op, careful, Some(s.parent));
      assert o.op.Target() == ShareUri(s);
    } else if o.Joined? {
      ok := WaitOnListed(m, OpInfo(o.id, ShareDelete, ShareUri(s)), careful, Some(s.parent));
    }
    EndedSince(ShareDelete, ShareUri(s), before, |old(m.ended)|, m.ended);
  }

  /** The instance is idle, and gone or with nothing to shrink. */
  ghost predicate NothingToDo(m: Manager, i: Instance)
    reads m
  {
    ValidInstance(i) && i != Mimicked() && Idle(i, m.running) && (i in m.instances ==> NothingToShrink(m.instances[i]))
  }

  /** startAndWaitForInstanceDeleteOrShrink. */
  method DeleteOrShrinkAndWait(m: Manager, i: Instance, careful: bool) returns (r: Reply)
    requires m.Valid()
    modifies m
    ensures old(m.ended) <= m.ended
    ensures m.Valid() && (m.orderly ==> old(m.orderly))
    ensures careful && i !in old(m.waiting) ==> m.orderly == old(m.orderly)
    ensures r == Done || r == Retry
    ensures r == Done ==> HostDone(m.instances, i, |old(m.ended)|, m.ended)
    ensures old(NothingToDo(m, i)) ==> r == Done
  {
    var o := m.CheckAndStartInstanceDeleteOrShrinkWorkflow(i);
    ghost var before := |m.ended|;
    r := Retry;
    if o.Nothing? {
      r := Done;
    } else if o.Started? {
      var ok := WaitOnWorkflow(m, o.op, careful, None);
      assert o.op.Target() == InstanceUri(i);
      r := if ok then Done else Retry;
    }
    HostDoneSince(m.instances, i, before, |old(m.ended)|, m.ended);
  }

  lemma ReadingIsFair(m: Manager, s: Share, bytes: int, seen: Seen, limit: int)
    requires m.Valid() && m.orderly && IsReading(m.Now(), s, seen) && s.parent !in m.waiting
    requires LimitFits(m.instances[s.parent], limit, m.feature) && 0 <= bytes <= limit && seen.capacity < bytes
    ensures ExpandIsFair(s, bytes, seen, m.instances[s.parent], m.waiting, m.feature)
  {
    var h := m.instances[s.parent];
    assert HostOk(s.parent, h, m.running, TicketOf(m.waiting, s.parent), m.feature);
    MissingIs(h.shares, s.name, bytes);
    Scale(bytes, limit, Count(h, m.feature));
    ExpandCovers(s.parent, h, m.running, m.feature, s.name, bytes, seen.parentCapacity, bytes - seen.capacity, seen.parentStepGb);
  }
}
