/**
 * The end of a round: which cloud operations may be started, and what the writes made on the way keep.
 */
module Requests {
  import opened Wrappers
  import opened Objects
  import opened Capacity
  import opened ApiServer
  import opened PointerRepair
  import opened Sizing
  import opened RepairRun
  import opened Upkeep

  /** A running operation, or one that failed not long ago. */
  datatype Op = Op(target: string, error: Option<string>)

  function ShareTarget(u: Uri, s: Name): string {
    u + "/shares/" + s
  }

  predicate Running(target: string, ops: seq<Op>) {
    exists op :: op in ops && op.target == target && op.error.None?
  }

  /** What the last operation on the target failed with, of those before the first that runs. */
  function OpError(target: string, ops: seq<Op>): Option<string> {
    if ops == [] then None
    else if ops[0].target != target then OpError(target, ops[1..])
    else if ops[0].error.None? then None
    else if OpError(target, ops[1..]).Some? then OpError(target, ops[1..])
    else ops[0].error
  }

  /** runningOpMaybeErrForTarget: the last error before the first running operation comes along. */
  method RunningOp(target: string, ops: seq<Op>) returns (running: bool, error: Option<string>)
    ensures running <==> Running(target, ops)
    ensures error == OpError(target, ops)
  {
    running, error := false, None;
    for k := 0 to |ops|
      invariant !running && forall op | op in ops[..k] :: op.target == target ==> op.error.Some?
      invariant OpError(target, ops) == var later := OpError(target, ops[k..]); if later.Some? then later else error
    {
      TakeNext(ops, k);
      assert ops[k..][1..] == ops[k + 1..];
      if ops[k].target == target {
        if ops[k].error.Some? {
          error := ops[k].error;
        } else {
          running := true;
          assert ops[k] in ops;
          return;
        }
      }
    }
    TakeAll(ops);
  }

  /** The scan stops at the first operation on the target that runs, or at the end. */
  ghost predicate StopsAt(target: string, ops: seq<Op>, n: nat) {
    && n <= |ops| && (forall k | 0 <= k < n && ops[k].target == target :: ops[k].error.Some?)
    && (n < |ops| ==> ops[n].target == target && ops[n].error.None?)
  }

  /** Of the first n operations the last on this target failed like this, or there is none. */
  ghost predicate IsLastError(target: string, ops: seq<Op>, n: nat, error: Option<string>) {
    && n <= |ops|
    && if error.None? then forall k | 0 <= k < n :: ops[k].target != target
       else exists k :: 0 <= k < n && ops[k] == Op(target, error) && forall j | k < j < n :: ops[j].target != target
  }

  lemma {:induction false} OpErrorExact(target: string, ops: seq<Op>) returns (n: nat)
    ensures StopsAt(target, ops, n) && IsLastError(target, ops, n, OpError(target, ops))
  {
    n := 0;
    if ops != [] && (ops[0].target != target || ops[0].error.Some?) {
      var rest, error := ops[1..], OpError(target, ops[1..]);
      var m := OpErrorExact(target, rest);
      n := m + 1;
      assert forall k | 0 < k < |ops| :: ops[k] == rest[k - 1];
      if error.Some? {
        var k :| 0 <= k < m && rest[k] == Op(target, error) && forall j | k < j < m :: rest[j].target != target;
        assert ops[k + 1] == Op(target, error);
      } else {
        assert forall j | 0 < j < n :: ops[j].target != target;
      }
    }
  }

  /** No request is needed: the instance has its capacity and is up, or is in trouble that a request would not mend. */
  predicate SettledInstance(i: InstanceInfo) {
    !i.deleting && i.status.Some? && i.capacity == i.status.value.capacity
    && (i.status.value.phase == Ready || i.status.value.phase == Updating)
  }

  /** The instance exists, in whatever state. */
  predicate InstanceUp(i: InstanceInfo) {
    i.status.Some? && (i.status.value.phase == Ready || i.status.value.phase == Updating)
  }

  /** What a round goes by when it sends requests: its copies, the listing, and the operations that run or ran. */
  datatype View = View(ls: map<Name, ShareInfo>, li: map<Uri, InstanceInfo>, listing: seq<CloudShare>, ops: seq<Op>)

  /** The share is on its way out, and the cloud no longer lists it where it points. */
  ghost predicate IsGone(s: Name, a: ShareInfo, listing: seq<CloudShare>) {
    && a.deleting && a.status.Some? && a.status.value.phase != Deleted
    && forall c | c in listing :: !(c.name == s && c.parent == a.status.value.handle)
  }

  /** What an operation is for. */
  datatype Subject = OfShare(share: Name) | OfInstance(uri: Uri)

  function SubjectOf(op: StartedOp): Subject {
    match op
    case CreateShare(s, _, _) => OfShare(s)
    case ResizeShare(s, _, _) => OfShare(s)
    case DeleteShare(s, _) => OfShare(s)
    case CreateInstance(u, _) => OfInstance(u)
    case ResizeInstance(u, _) => OfInstance(u)
    case DeleteInstance(u) => OfInstance(u)
  }

  /** The host is up and has grown to the capacity wanted of it. */
  predicate HostIsReady(i: InstanceInfo) {
    i.status.Some? && i.status.value.phase == Ready && i.status.value.capacity >= i.capacity
  }

  /**
   * The share points to a copied instance that is ready and whose observed capacity is at least the wanted
   * one, and no operation on it is running there.
   */
  ghost predicate CanBeServed(s: Name, u: Uri, v: View) {
    && s in v.ls && v.ls[s].status.Some? && v.ls[s].status.value.handle == u && u != ""
    && u in v.li && v.li[u].status.Some?
    && v.li[u].status.value.phase == Ready && v.li[u].status.value.capacity >= v.li[u].capacity
    && !Running(u + "/shares/" + s, v.ops)
  }

  /**
   * The operations that are due, each with its guards. A live share whose wanted size is not the observed
   * one is created unless it is ready, and resized if it is ready and has a size; a share on its way out that
   * the cloud lists where it points is deleted. An instance on its way out is deleted; a live one is created
   * unless it is up, and resized if it is up, has a size and is to have another.
   */
  ghost predicate Due(op: StartedOp, v: View) {
    match op
    case CreateShare(s, u, c) =>
      && CanBeServed(s, u, v) && !v.ls[s].deleting && v.ls[s].status.value.phase != Ready
      && c == v.ls[s].capacity != v.ls[s].status.value.capacity
    case ResizeShare(s, u, c) =>
      && CanBeServed(s, u, v) && !v.ls[s].deleting && v.ls[s].status.value.phase == Ready
      && c == v.ls[s].capacity != v.ls[s].status.value.capacity && v.ls[s].status.value.capacity != 0
    case DeleteShare(s, u) =>
      && CanBeServed(s, u, v) && v.ls[s].deleting && v.ls[s].status.value.phase != Deleted
      && exists c :: c in v.listing && c.name == s && c.parent == u
    case CreateInstance(u, c) =>
      && u in v.li && !v.li[u].deleting && !Running(u, v.ops) && c == v.li[u].capacity
      && (v.li[u].status.None? || (v.li[u].status.value.phase != Ready && v.li[u].status.value.phase != Updating))
    case ResizeInstance(u, c) =>
      && u in v.li && !v.li[u].deleting && !Running(u, v.ops) && c == v.li[u].capacity
      && v.li[u].status.Some? && (v.li[u].status.value.phase == Ready || v.li[u].status.value.phase == Updating)
      && c != v.li[u].status.value.capacity && v.li[u].status.value.capacity != 0
    case DeleteInstance(u) => u in v.li && v.li[u].deleting && !Running(u, v.ops)
  }

  /** For each share and each instance at most one operation is due. */
  lemma DueOnce(a: StartedOp, b: StartedOp, v: View)
    requires Due(a, v) && Due(b, v) && SubjectOf(a) == SubjectOf(b)
    ensures a == b
  {
  }

  /**
   * For these shares and instances: since then no operation was started but those due, none was started
   * twice, and if no call fails each that is due was started.
   */
  ghost predicate Served(before: seq<StartedOp>, after: seq<StartedOp>, subjects: set<Subject>, v: View, all: bool) {
    && before <= after
    && (forall k | |before| <= k < |after| :: Due(after[k], v) && SubjectOf(after[k]) in subjects)
    && (forall j, k | |before| <= j < k < |after| :: SubjectOf(after[j]) != SubjectOf(after[k]))
    && (all ==> forall op | Due(op, v) && SubjectOf(op) in subjects :: op in after[|before|..])
  }

  lemma ServedNext(a: seq<StartedOp>, b: seq<StartedOp>, c: seq<StartedOp>, xs: set<Subject>, ys: set<Subject>, v: View, all: bool)
    requires Served(a, b, xs, v, all) && Served(b, c, ys, v, all) && xs !! ys
    ensures Served(a, c, xs + ys, v, all)
  {
    forall k | |a| <= k < |c| ensures Due(c[k], v) && SubjectOf(c[k]) in (if k < |b| then xs else ys) {
      if k < |b| { assert c[k] == b[k]; }
    }
    if all {
      assert c[|a|..] == b[|a|..] + c[|b|..];
    }
  }

  lemma ServedNone(before: seq<StartedOp>, v: View, all: bool)
    ensures Served(before, before, {}, v, all)
  {
  }

  /** The one operation due for a share or an instance. */
  lemma ServedOne(before: seq<StartedOp>, after: seq<StartedOp>, op: StartedOp, v: View, all: bool)
    requires Due(op, v) && (after == before + [op] || (after == before && !all))
    ensures Served(before, after, {SubjectOf(op)}, v, all)
  {
    forall o | Due(o, v) && SubjectOf(o) in {SubjectOf(op)} ensures o == op {
      DueOnce(o, op, v);
    }
  }

  /** Nothing is due for this share or instance. */
  ghost predicate NothingDue(x: Subject, v: View) {
    forall op | Due(op, v) :: SubjectOf(op) != x
  }

  lemma ServedFewer(before: seq<StartedOp>, x: Subject, v: View)
    ensures Served(before, before, {x}, v, false)
  {
  }

  lemma ShareServed(a: seq<StartedOp>, b: seq<StartedOp>, c: seq<StartedOp>, order: seq<Name>, k: nat, v: View, all: bool)
    requires k < |order| && Distinct(order)
    requires Served(a, b, set s | s in order[..k] :: OfShare(s), v, all) && Served(b, c, {OfShare(order[k])}, v, all)
    ensures Served(a, c, set s | s in order[..k + 1] :: OfShare(s), v, all)
  {
    var xs := set s | s in order[..k] :: OfShare(s);
    TakeNext(order, k);
    ServedNext(a, b, c, xs, {OfShare(order[k])}, v, all);
    assert (set s | s in order[..k + 1] :: OfShare(s)) == xs + {OfShare(order[k])};
  }

  lemma InstanceServed(a: seq<StartedOp>, b: seq<StartedOp>, c: seq<StartedOp>, order: seq<Uri>, k: nat, v: View, all: bool)
    requires k < |order| && Distinct(order)
    requires Served(a, b, set u | u in order[..k] :: OfInstance(u), v, all) && Served(b, c, {OfInstance(order[k])}, v, all)
    ensures Served(a, c, set u | u in order[..k + 1] :: OfInstance(u), v, all)
  {
    var xs := set u | u in order[..k] :: OfInstance(u);
    TakeNext(order, k);
    ServedNext(a, b, c, xs, {OfInstance(order[k])}, v, all);
    assert (set u | u in order[..k + 1] :: OfInstance(u)) == xs + {OfInstance(order[k])};
  }

  /** Since then no operation was started but those due, none twice, and each if no call fails. */
  ghost predicate Sent(before: seq<StartedOp>, after: seq<StartedOp>, v: View, all: bool) {
    && before <= after
    && (forall k | |before| <= k < |after| :: Due(after[k], v))
    && (forall j, k | |before| <= j < k < |after| :: SubjectOf(after[j]) != SubjectOf(after[k]))
    && (all ==> forall op | Due(op, v) :: op in after[|before|..])
  }

  ghost function ShareSubjects(v: View): set<Subject> {
    set s | s in v.ls :: OfShare(s)
  }

  ghost function InstanceSubjects(v: View): set<Subject> {
    set u | u in v.li :: OfInstance(u)
  }

  lemma AllSharesServed(before: seq<StartedOp>, after: seq<StartedOp>, order: seq<Name>, v: View, all: bool)
    requires (forall s :: s in order <==> s in v.ls) && Served(before, after, set s | s in order[..|order|] :: OfShare(s), v, all)
    ensures Served(before, after, ShareSubjects(v), v, all)
  {
    TakeAll(order);
    assert (set s | s in order[..|order|] :: OfShare(s)) == ShareSubjects(v);
  }

  lemma AllInstancesServed(before: seq<StartedOp>, after: seq<StartedOp>, order: seq<Uri>, v: View, all: bool)
    requires (forall u :: u in order <==> u in v.li) && Served(before, after, set u | u in order[..|order|] :: OfInstance(u), v, all)
    ensures Served(before, after, InstanceSubjects(v), v, all)
  {
    TakeAll(order);
    assert (set u | u in order[..|order|] :: OfInstance(u)) == InstanceSubjects(v);
  }

  /** Instances first, shares second. */
  lemma AllServed(a: seq<StartedOp>, b: seq<StartedOp>, c: seq<StartedOp>, v: View, all: bool)
    requires Served(a, b, InstanceSubjects(v), v, all) && Served(b, c, ShareSubjects(v), v, all)
    ensures Sent(a, c, v, all)
  {
    ServedNext(a, b, c, InstanceSubjects(v), ShareSubjects(v), v, all);
    forall op | Due(op, v) ensures SubjectOf(op) in InstanceSubjects(v) + ShareSubjects(v) {
    }
  }

  // When nothing is due.

  /** A share to be created, resized or deleted, assigned to a ready host. */
  predicate NeedsHost(a: ShareInfo, li: map<Uri, InstanceInfo>) {
    && a.status.Some? && a.Handle() != "" && a.Handle() in li && HostIsReady(li[a.Handle()])
    && (a.deleting || a.capacity != a.status.value.capacity)
  }

  /** A share that exists but has no size yet is left alone. */
  predicate Startable(a: ShareInfo)
    requires a.status.Some?
  {
    a.deleting || a.PhaseNow() != Ready || a.status.value.capacity != 0
  }

  lemma ShareNotDue(s: Name, v: View, li: map<Uri, InstanceInfo>)
    requires Alike(v.li, li) && s in v.ls
    requires var a := v.ls[s];
             || !NeedsHost(a, li) || !Startable(a) || Running(ShareTarget(a.Handle(), s), v.ops)
             || (a.deleting && (a.PhaseNow() == Deleted || !ListsShare(v.listing, s, a.Handle())))
    ensures NothingDue(OfShare(s), v)
  {
  }

  lemma InstanceNotDue(u: Uri, v: View)
    requires u in v.li ==> Running(u, v.ops) || SettledInstance(v.li[u])
                           || (!v.li[u].deleting && InstanceUp(v.li[u])
                               && (v.li[u].status.value.capacity == 0 || v.li[u].capacity == v.li[u].status.value.capacity))
    ensures NothingDue(OfInstance(u), v)
  {
  }

  /** The copies at the moment requests are sent, as the invariant has them. */
  ghost predicate HostsListed(ls: map<Name, ShareInfo>, li: map<Uri, InstanceInfo>, g: Pools) {
    && AllInPool(ls, g) && (forall u | u in li :: InstanceInPool(li[u], g))
    && (forall s | s in ls && !ls[s].deleting ::
          ls[s].PhaseNow() != Deleted && (ls[s].Handle() in li ==> Lists(li, ls[s].Handle(), s)))
    && (forall u | u in li && li[u].deleting :: li[u].Names() == [])
    && "" !in li
  }

  /**
   * A share is created or resized on a live instance that lists it and is ready, whose observed capacity
   * is at least the wanted one, which is at least what all shares it lists want, this one included, as far
   * as an instance can be: without that reservation if its share count allows for shares of their size.
   */
  ghost predicate FitsHost(op: StartedOp, ls: map<Name, ShareInfo>, li: map<Uri, InstanceInfo>, g: Pools)
    requires op.CreateShare? || op.ResizeShare?
  {
    && op.uri in li && op.share in Live(ls) && op.capacity == ls[op.share].capacity
    && var host := li[op.uri];
    && !host.deleting && host.status.Some? && host.status.value.phase == Ready
    && var total := Sum(CapsOf(host.Names(), Live(ls)));
    && host.status.value.capacity >= host.capacity >= Min(total, MAX_INSTANCE)
    && (Admits(host, g) ==> host.capacity >= total)
    && op.share in host.Names()
  }

  /**
   * Every share created or resized since fits exactly if its host is to be large enough for what it lists,
   * which an instance is unless it was refused the capacity it needs.
   */
  ghost predicate SharesFit(before: seq<StartedOp>, after: seq<StartedOp>, v: View, stuck: set<Uri>, g: Pools) {
    forall k | |before| <= k < |after| && (after[k].CreateShare? || after[k].ResizeShare?) ::
      && after[k].uri in v.li && (FitsHost(after[k], v.ls, v.li, g) <==> Covers(v.li[after[k].uri], v.ls))
      && (after[k].uri !in stuck ==> FitsHost(after[k], v.ls, v.li, g))
  }

  /** Safe share operations: this holds of every share created or resized. */
  lemma ShareOpsFit(before: seq<StartedOp>, after: seq<StartedOp>, v: View, all: bool, stuck: set<Uri>, g: Pools)
    requires Sent(before, after, v, all) && AllProvided(v.li, v.ls, stuck) && HostsListed(v.ls, v.li, g)
    ensures SharesFit(before, after, v, stuck, g)
  {
    forall k | |before| <= k < |after| && (after[k].CreateShare? || after[k].ResizeShare?)
      ensures after[k].uri in v.li && (FitsHost(after[k], v.ls, v.li, g) <==> Covers(v.li[after[k].uri], v.ls))
              && (after[k].uri !in stuck ==> FitsHost(after[k], v.ls, v.li, g))
    {
      FitsIfCovered(after[k], v, g);
      if after[k].uri !in stuck { assert Provided(v.li[after[k].uri], v.ls); }
    }
  }

  lemma FitsIfCovered(op: StartedOp, v: View, g: Pools)
    requires (op.CreateShare? || op.ResizeShare?) && Due(op, v) && HostsListed(v.ls, v.li, g)
    ensures FitsHost(op, v.ls, v.li, g) <==> Covers(v.li[op.uri], v.ls)
    ensures v.li[op.uri].Names() != [] && !v.li[op.uri].deleting
  {
    var host := v.li[op.uri];
    if Admits(host, g) { ListedSharesFit(host, v.ls, g); }
  }

  /**
   * The exception is real. An instance of 1 TiB holds a share of that size and has just been assigned another
   * one. Its wanted capacity has to be doubled; when that update fails the copies stay as they are, and the
   * second share is created all the same, on an instance that is too small for both.
   */
  lemma StuckHostOverfills(g: Pools, u: Uri, a: Name, b: Name)
    requires u != "" && a != b && forall n | n in {a, b} :: g.tagOf(n) == "t" && g.paramsOf(n) == Size(TB)
    ensures
      var ls, li, op := TwoShares(u, a, b), OneHost(u, a, b), CreateShare(b, u, TB);
      && HostsListed(ls, li, g)
      && TargetCapacity(li[u], ls) == 2 * TB == Sum(CapsOf(li[u].Names(), ls)) && li[u].status.value.capacity == li[u].capacity == TB
      && Due(op, View(ls, li, [], [])) && !FitsHost(op, ls, li, g)
  {
    var ls, li := TwoShares(u, a, b), OneHost(u, a, b);
    TwoShareSums(ls, a, b);
    TwoAreListed(g, u, a, b);
    FitsIfCovered(CreateShare(b, u, TB), View(ls, li, [], []), g);
  }

  /** One share that is there, and one that has just been assigned. */
  function TwoShares(u: Uri, a: Name, b: Name): map<Name, ShareInfo> {
    map[a := ShareInfo(false, "t", Size(TB), TB, Some(ShareStatus(u, TB, Ready, ""))),
        b := ShareInfo(false, "t", Size(TB), TB, Some(ShareStatus(u, 0, Unset, "")))]
  }

  function OneHost(u: Uri, a: Name, b: Name): map<Uri, InstanceInfo> {
    map[u := InstanceInfo(false, 1, "t", Size(TB), TB, Some(InstanceStatus([a, b], TB, Ready, 0, "", "")))]
  }

  lemma TwoAreListed(g: Pools, u: Uri, a: Name, b: Name)
    requires u != "" && a != b && forall n | n in {a, b} :: g.tagOf(n) == "t" && g.paramsOf(n) == Size(TB)
    ensures HostsListed(TwoShares(u, a, b), OneHost(u, a, b), g)
  {
    assert MaxSharePerVolume(g.feature, Size(TB)) == TB && MaxSharePerInstance(g.feature, Size(TB)) == 10;
    var ls, i := TwoShares(u, a, b), OneHost(u, a, b)[u];
    forall s | s in ls ensures ShareInPool(s, ls[s], g) && Lists(OneHost(u, a, b), u, s) {
      assert s == [a, b][if s == a then 0 else 1];
    }
    assert InstanceInPool(i, g);
  }

  lemma TwoShareSums(ls: map<Name, ShareInfo>, a: Name, b: Name)
    requires a in Live(ls) && b in Live(ls) && ls[a].capacity == TB && ls[b].capacity == TB
    ensures Sum(CapsOf([a, b], ls)) == Sum(CapsOf([a, b], Live(ls))) == 2 * TB && NewCapacity(2 * TB, 0) == 2 * TB
  {
    TwoEqual(ls, a, b);
    TwoEqual(Live(ls), a, b);
    TwoTiB();
  }

  lemma TwoEqual(ls: map<Name, ShareInfo>, a: Name, b: Name)
    requires a in ls && b in ls && ls[a].capacity == TB && ls[b].capacity == TB
    ensures Sum(CapsOf([a, b], ls)) == 2 * TB
  {
    SumOfEqual([a, b], ls, TB);
  }

  lemma TwoTiB()
    ensures NewCapacity(2 * TB, 0) == 2 * TB
  {
    AlignIsLeastMultiple(2 * TB, DEFAULT_STEP_GB * GB);
  }

  lemma MirrorsListHosts(w: World, g: Pools, ls: map<Name, ShareInfo>, li: map<Uri, InstanceInfo>, condemned: set<Uri>)
    requires Safe(w, g) && CopiesSafe(ls, w.instances, g) && Mirrors(Marked(li, condemned), w.instances)
    ensures HostsListed(ls, li, g)
  {
    forall u | u in li
      ensures u in w.instances && li[u].Names() == w.instances[u].Names() && (li[u].deleting ==> li[u].Names() == []) && InstanceInPool(li[u], g)
    {
      assert u in Marked(li, condemned) && InstanceInPool(w.instances[u], g);
    }
    forall s | s in ls ensures ShareInPool(s, ls[s], g) {
      assert CopySafe(s, ls[s], w.instances, g);
    }
    forall s | s in ls && !ls[s].deleting
      ensures ls[s].PhaseNow() != Deleted && (ls[s].Handle() in li ==> Lists(li, ls[s].Handle(), s))
    {
      assert CopySafe(s, ls[s], w.instances, g);
    }
  }

  /** An instance is deleted only when nothing live is assigned to it and the cloud holds nothing on it. */
  ghost predicate HostsNothing(u: Uri, w: World) {
    && (forall s | s in w.shares && !w.shares[s].deleting :: w.shares[s].Handle() != u)
    && (forall s :: (s, u) !in w.cloudShares)
  }

  /** Every instance deleted since hosts nothing. */
  ghost predicate DeletedAreEmpty(before: seq<StartedOp>, after: seq<StartedOp>, w: World) {
    forall k | |before| <= k < |after| && after[k].DeleteInstance? :: HostsNothing(after[k].uri, w)
  }

  lemma DeletedHostNothing(before: seq<StartedOp>, after: seq<StartedOp>, v: View, all: bool, w: World, g: Pools, li: map<Uri, InstanceInfo>)
    requires Sent(before, after, v, all) && Safe(w, g) && Known(li, w.instances) && Alike(v.li, li)
    ensures DeletedAreEmpty(before, after, w)
  {
    forall k | |before| <= k < |after| && after[k].DeleteInstance? ensures HostsNothing(after[k].uri, w) {
      assert li[after[k].uri].deleting;
      CondemnedHostsNothing(w, g, after[k].uri);
    }
  }

  // How the copies relate to the stored objects while requests are sent.

  ghost predicate Known(li: map<Uri, InstanceInfo>, instances: map<Uri, InstanceInfo>) {
    forall u | u in li :: u in instances && (li[u].deleting ==> instances[u].deleting)
  }

  /** Since it was copied, the share has kept its handle and its phase, and its deletion mark; or it was deleted already. */
  ghost predicate Kept(a: ShareInfo, s: Name, shares: map<Name, ShareInfo>) {
    if s in shares then
      || (shares[s].Handle() == a.Handle() && shares[s].PhaseNow() == a.PhaseNow() && (a.deleting ==> shares[s].deleting))
      || (a.PhaseNow() == Deleted && Blank(shares[s]))
    else a.PhaseNow() == Deleted
  }

  ghost predicate AllKept(pending: set<Name>, ls: map<Name, ShareInfo>, shares: map<Name, ShareInfo>) {
    forall s | s in pending && s in ls :: Kept(ls[s], s, shares)
  }

  lemma KeptStays(pending: set<Name>, ls: map<Name, ShareInfo>, before: map<Name, ShareInfo>, after: map<Name, ShareInfo>)
    requires AllKept(pending, ls, before) && Later(before, after)
    ensures AllKept(pending, ls, after)
  {
    forall s | s in pending && s in ls ensures Kept(ls[s], s, after) {
      assert Kept(ls[s], s, before);
      var a := if s in before then before[s] else ls[s];
      assert Tracks(a, s, before) && Tracks(a, s, after);
    }
  }

  lemma InStepIsKept(ls: map<Name, ShareInfo>, shares: map<Name, ShareInfo>)
    requires InStep(ls, shares)
    ensures AllKept(ls.Keys, ls, shares)
  {
    forall s | s in ls ensures Kept(ls[s], s, shares) {
      assert Tracks(ls[s], s, shares);
    }
  }

  /** What the cloud holds was listed at the start of the round, or was created since for a share already dealt with. */
  ghost predicate HeldSince(pending: set<Name>, listing: seq<CloudShare>, held: set<(Name, Uri)>) {
    forall s, u | (s, u) in held && s in pending :: ListsShare(listing, s, u)
  }

  /** The instances as copied, but for shares dropped from their lists. */
  ghost predicate Alike(first: map<Uri, InstanceInfo>, li: map<Uri, InstanceInfo>) {
    li.Keys == first.Keys && forall u | u in li :: li[u] == first[u] || li[u] == first[u].WithNames(li[u].Names())
  }

  lemma AlikeTransitive(a: map<Uri, InstanceInfo>, b: map<Uri, InstanceInfo>, c: map<Uri, InstanceInfo>)
    requires Alike(a, b) && Alike(b, c)
    ensures Alike(a, c)
  {
    forall u | u in c ensures c[u] == a[u] || c[u] == a[u].WithNames(c[u].Names()) {
      WithNamesTwice(a[u], b[u].Names(), c[u].Names());
    }
  }

  lemma MarkedIsKnown(li: map<Uri, InstanceInfo>, condemned: set<Uri>, instances: map<Uri, InstanceInfo>)
    requires Mirrors(Marked(li, condemned), instances)
    ensures Known(li, instances)
  {
    forall u | u in li ensures u in instances && (li[u].deleting ==> instances[u].deleting) {
      assert u in Marked(li, condemned);
    }
  }

  function WithError(i: InstanceInfo, error: string): InstanceInfo {
    i.(status := Some(i.StatusOrNew().(error := error)))
  }

  function ShareWithError(a: ShareInfo, error: string): ShareStatus {
    if a.status.Some? then a.status.value.(error := error) else ShareStatus("", 0, Unset, error)
  }

  function Lower(c: char): char {
    if 'A' <= c <= 'Z' then c + 32 as char else c
  }

  /** strings.EqualFold, for the letters of error messages. */
  predicate EqualFold(a: string, b: string) {
    |a| == |b| && forall i | 0 <= i < |a| :: Lower(a[i]) == Lower(b[i])
  }

  /** Two texts are the same letter by letter, but for the case of Latin letters. */
  lemma EqualFoldExact(a: string, b: string)
    ensures EqualFold(a, b) <==> |a| == |b| && forall i | 0 <= i < |a| :: a[i] == b[i] || OtherCase(a[i], b[i]) || OtherCase(b[i], a[i])
  {
    forall i | 0 <= i < |a| && i < |b| ensures Lower(a[i]) == Lower(b[i]) <==> a[i] == b[i] || OtherCase(a[i], b[i]) || OtherCase(b[i], a[i]) {
      LowerExact(a[i], b[i]);
    }
  }

  predicate OtherCase(upper: char, lower: char) {
    'A' <= upper <= 'Z' && lower as int - 'a' as int == upper as int - 'A' as int
  }

  lemma LowerExact(c: char, d: char)
    ensures Lower(c) == Lower(d) <==> c == d || OtherCase(c, d) || OtherCase(d, c)
  {
  }

  /** The share's object once an error is told of it, unless it says so already. */
  function TellShare(a: ShareInfo, error: Option<string>): ShareInfo {
    if error.None? || EqualFold(a.ErrorNow(), error.value) then a else a.(status := Some(ShareWithError(a, error.value)))
  }

  function TellInstance(i: InstanceInfo, error: Option<string>): InstanceInfo {
    if error.None? || EqualFold(i.StatusOrNew().error, error.value) then i else WithError(i, error.value)
  }

  lemma InstanceErrorKeeps(w: World, g: Pools, ls: map<Name, ShareInfo>, u: Uri, error: string)
    requires Safe(w, g) && CopiesSafe(ls, w.instances, g) && u in w.instances
    ensures var instances := w.instances[u := WithError(w.instances[u], error)];
            Safe(w.(instances := instances), g) && CopiesSafe(ls, instances, g)
  {
    var i := WithError(w.instances[u], error);
    InstanceChangeKeeps(w, g, u, i);
    CopiesStaySafe(ls, w.instances, w.instances[u := i], u, g);
  }

  lemma StartInstanceKeeps(w: World, g: Pools, u: Uri)
    requires Safe(w, g) && u in w.instances
    ensures Safe(w.(cloudInstances := w.cloudInstances + {u}), g)
  {
    var t := w.(cloudInstances := w.cloudInstances + {u});
    forall n, v | (n, v) in t.cloudShares ensures ObservedShare(t, n, v) {
      assert ObservedShare(w, n, v);
    }
  }

  /** A share on its way out that the cloud no longer holds may leave the list. */
  lemma DropDeletedKeeps(w: World, g: Pools, ls: map<Name, ShareInfo>, u: Uri, s: Name)
    requires Safe(w, g) && CopiesSafe(ls, w.instances, g) && u in w.instances
    requires s in ls && ls[s].deleting && Kept(ls[s], s, w.shares) && ls[s].PhaseNow() != Deleted
    requires forall v :: (s, v) !in w.cloudShares
    ensures var i := w.instances[u].WithNames(Without(w.instances[u].Names(), s));
            Safe(w.(instances := w.instances[u := i]), g) && CopiesSafe(ls, w.instances[u := i], g)
  {
    var i := w.instances[u].WithNames(Without(w.instances[u].Names(), s));
    WithoutDistinct(w.instances[u].Names(), s);
    assert Droppable(w, u, s);
    if w.instances[u].deleting { assert w.instances[u].Names() == []; }
    InstanceChangeKeeps(w, g, u, i);
    forall n | n in ls ensures CopySafe(n, ls[n], w.instances[u := i], g) {
      assert CopySafe(n, ls[n], w.instances, g);
    }
  }

  /** A share the listing does not show on the instance it points to is held nowhere. */
  lemma UnlistedIsGone(w: World, g: Pools, listing: seq<CloudShare>, pending: set<Name>, s: Name, a: ShareInfo)
    requires Safe(w, g) && HeldSince(pending, listing, w.cloudShares) && s in pending
    requires Kept(a, s, w.shares) && a.PhaseNow() != Deleted && !ListsShare(listing, s, a.Handle())
    ensures forall v :: (s, v) !in w.cloudShares
  {
    forall v ensures (s, v) !in w.cloudShares {
      assert (s, v) in w.cloudShares ==> ObservedShare(w, s, v);
    }
  }

  /** A live share that is copied and kept is observed where it points. */
  lemma KeptIsObserved(w: World, g: Pools, s: Name, a: ShareInfo)
    requires Safe(w, g) && CopySafe(s, a, w.instances, g) && Kept(a, s, w.shares) && !a.deleting && a.Handle() != ""
    ensures ObservedShare(w, s, a.Handle())
  {
  }

  /** The copies against the world while requests are sent; `pending` are the shares not dealt with yet. */
  ghost predicate Sends(c: Copies, w: World, pending: set<Name>, listing: seq<CloudShare>, g: Pools, sound: bool) {
    && Known(c.li, w.instances) && AllKept(pending, c.ls, w.shares) && HeldSince(pending, listing, w.cloudShares)
    && "" !in c.li && (sound ==> SoundFor(c.ls, w, g))
  }

  /** From assigning to sending. */
  lemma WorkSends(ls: map<Name, ShareInfo>, li: map<Uri, InstanceInfo>, condemned: set<Uri>, w: World, listing: seq<CloudShare>, g: Pools)
    requires Work(Copies(ls, Marked(li, condemned)), w, g, true) && AllListed(listing, w.cloudShares)
    ensures Sends(Copies(ls, li), w, ls.Keys, listing, g, true) && HostsListed(ls, li, g)
  {
    MirrorsListHosts(w, g, ls, li, condemned);
    MarkedIsKnown(li, condemned, w.instances);
    InStepIsKept(ls, w.shares);
  }

  /** Every share the cloud holds is listed. */
  ghost predicate AllListed(listing: seq<CloudShare>, held: set<(Name, Uri)>) {
    forall s, u | (s, u) in held :: ListsShare(listing, s, u)
  }

  lemma SendsLater(c: Copies, w: World, mid: World, pending: set<Name>, listing: seq<CloudShare>, g: Pools, sound: bool)
    requires Sends(c, w, pending, listing, g, sound) && Between(w, mid) && (sound ==> Safe(mid, g))
    ensures Sends(c, mid, pending, listing, g, sound)
  {
    KeptStays(pending, c.ls, w.shares, mid.shares);
  }

  lemma FewerPending(c: Copies, w: World, pending: set<Name>, fewer: set<Name>, listing: seq<CloudShare>, g: Pools, sound: bool)
    requires fewer <= pending
    ensures Sends(c, w, pending, listing, g, sound) ==> Sends(c, w, fewer, listing, g, sound)
  {
  }

  function WithoutShare(i: InstanceInfo, s: Name): InstanceInfo {
    if s in i.Names() then i.WithNames(Without(i.Names(), s)) else i
  }

  lemma CloneSends(c: Copies, w: World, u: Uri, s: Name, pending: set<Name>, listing: seq<CloudShare>, g: Pools, sound: bool)
    requires Sends(c, w, pending, listing, g, sound) && u in c.li
    ensures var li := c.li[u := WithoutShare(c.li[u], s)]; Sends(c.(li := li), w, pending, listing, g, sound) && Alike(c.li, li)
  {
  }

  lemma InstanceErrorWritten(c: Copies, w: World, u: Uri, error: string, pending: set<Name>, listing: seq<CloudShare>, g: Pools, sound: bool)
    requires Sends(c, w, pending, listing, g, sound) && u in w.instances
    ensures Sends(c, w.(instances := w.instances[u := WithError(w.instances[u], error)]), pending, listing, g, sound)
  {
    if sound { InstanceErrorKeeps(w, g, c.ls, u, error); }
  }

  lemma ShareErrorWritten(c: Copies, w: World, s: Name, error: string, pending: set<Name>, listing: seq<CloudShare>, g: Pools, sound: bool)
    requires Sends(c, w, pending, listing, g, sound) && s in w.shares
    ensures var a := w.shares[s].(status := Some(ShareWithError(w.shares[s], error)));
            Sends(c, w.(shares := w.shares[s := a]), pending, listing, g, sound)
  {
    if sound { ShareStatusKeeps(w, g, s, ShareWithError(w.shares[s], error)); }
  }

  lemma RequestSent(c: Copies, w: World, op: StartedOp, v: View, pending: set<Name>, listing: seq<CloudShare>, g: Pools, sound: bool)
    requires Sends(c, w, pending, listing, g, sound) && Alike(v.li, c.li) && v.ls == c.ls && Due(op, v)
    requires op.CreateShare? ==> op.share in pending
    ensures var fewer := if op.CreateShare? then pending - {op.share} else pending;
            Sends(c, w, fewer, listing, g, sound) && Sends(c, Requested(w, op), fewer, listing, g, sound)
  {
    if sound {
      if op.CreateShare? {
        KeptIsObserved(w, g, op.share, c.ls[op.share]);
        StartShareKeeps(w, g, op.share, op.uri);
      } else if op.CreateInstance? {
        StartInstanceKeeps(w, g, op.uri);
      }
    }
  }

  /** The instance drops a share that is on its way out and gone. */
  lemma DeletedDropped(c: Copies, w: World, s: Name, pending: set<Name>, listing: seq<CloudShare>, g: Pools, sound: bool)
    requires Sends(c, w, pending, listing, g, sound) && s in pending && s in c.ls && IsGone(s, c.ls[s], listing)
    requires c.ls[s].Handle() in w.instances
    ensures var u := c.ls[s].Handle();
            var i := w.instances[u].WithNames(Without(w.instances[u].Names(), s));
            Sends(c, w.(instances := w.instances[u := i]), pending, listing, g, sound)
  {
    if sound {
      UnlistedIsGone(w, g, listing, pending, s, c.ls[s]);
      DropDeletedKeeps(w, g, c.ls, c.ls[s].Handle(), s);
    }
  }

  lemma DeletedMarked(c: Copies, w: World, s: Name, pending: set<Name>, listing: seq<CloudShare>, g: Pools, sound: bool)
    requires Sends(c, w, pending, listing, g, sound) && s in pending && s in c.ls && IsGone(s, c.ls[s], listing)
    requires s in w.shares && w.shares[s] == c.ls[s]
    ensures Sends(c, w.(shares := w.shares[s := c.ls[s].WithPhase(Deleted)]), pending - {s}, listing, g, sound)
  {
    if sound {
      UnlistedIsGone(w, g, listing, pending, s, c.ls[s]);
      MarkDeletedKeeps(w, g, s);
    }
  }
}
