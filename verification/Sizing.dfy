/**
 * What deleteOrResizeInstances makes of an instance, and when a further assignment stage would find
 * nothing to do.
 */
module Sizing {
  import opened Wrappers
  import opened Objects
  import opened Capacity
  import opened PointerRepair
  import opened Placement

  /** The capacities wanted by those of the named shares that have an object. */
  function CapsOf(names: seq<Name>, shares: map<Name, ShareInfo>): seq<int> {
    if names == [] then []
    else (if names[0] in shares then [shares[names[0]].capacity] else []) + CapsOf(names[1..], shares)
  }

  /** The shares whose objects cannot be gone. */
  ghost function Live(ls: map<Name, ShareInfo>): map<Name, ShareInfo> {
    map s | s in ls && ls[s].PhaseNow() != Deleted :: ls[s]
  }

  predicate InstanceEmpty(i: InstanceInfo) {
    i.status.Some? && i.Names() == []
  }

  function TargetCapacity(i: InstanceInfo, shares: map<Name, ShareInfo>): int {
    NewCapacity(Sum(CapsOf(i.Names(), shares)), i.StatusOrNew().stepGb)
  }

  /** The instance after the stage: condemned if empty, sized to its shares otherwise. */
  ghost function Sized(i: InstanceInfo, shares: map<Name, ShareInfo>): InstanceInfo {
    if i.deleting then i
    else if InstanceEmpty(i) then (if i.finalizers == 0 then i else i.(deleting := true))
    else if i.Names() == [] then i
    else i.(capacity := TargetCapacity(i, shares))
  }

  /**
   * What the stage makes of an instance: marked if it was marked, or is empty and has a finalizer; otherwise,
   * if it lists anything, of the least capacity for what the listed shares want; and nothing else changes.
   */
  ghost predicate AfterStage(i: InstanceInfo, i': InstanceInfo, shares: map<Name, ShareInfo>) {
    var empty := i.status.Some? && i.status.value.shareNames == [];
    && i' == i.(deleting := i'.deleting, capacity := i'.capacity)
    && (i'.deleting <==> i.deleting || (empty && i.finalizers > 0))
    && if !i'.deleting && i.status.Some? && !empty
       then IsLeastFor(i'.capacity, Sum(CapsOf(i.status.value.shareNames, shares)), i.status.value.stepGb)
       else i'.capacity == i.capacity
  }

  lemma SizedIsAfterStage(i: InstanceInfo, shares: map<Name, ShareInfo>)
    ensures AfterStage(i, Sized(i, shares), shares)
  {
    if i.status.Some? { NewCapacityIsLeast(Sum(CapsOf(i.Names(), shares)), i.status.value.stepGb); }
  }

  ghost predicate AllAfterStage(before: map<Uri, InstanceInfo>, after: map<Uri, InstanceInfo>, shares: map<Name, ShareInfo>) {
    after.Keys == before.Keys && forall u | u in before :: AfterStage(before[u], after[u], shares)
  }

  lemma SizedAllIsAfterStage(li: map<Uri, InstanceInfo>, shares: map<Name, ShareInfo>)
    ensures AllAfterStage(li, SizedAll(li, shares), shares)
  {
    forall u | u in li ensures AfterStage(li[u], SizedAll(li, shares)[u], shares) {
      SizedIsAfterStage(li[u], shares);
    }
  }

  ghost function SizedAll(li: map<Uri, InstanceInfo>, shares: map<Name, ShareInfo>): map<Uri, InstanceInfo> {
    map u | u in li :: Sized(li[u], shares)
  }

  /** The stage half way: these instances are done. */
  ghost function SizedPart(li: map<Uri, InstanceInfo>, done: seq<Uri>, shares: map<Name, ShareInfo>): map<Uri, InstanceInfo> {
    map u | u in li :: if u in done then Sized(li[u], shares) else li[u]
  }

  lemma SizedPartStep(li: map<Uri, InstanceInfo>, done: seq<Uri>, u: Uri, shares: map<Name, ShareInfo>)
    requires u in li
    ensures SizedPart(li, done + [u], shares) == SizedPart(li, done, shares)[u := Sized(li[u], shares)]
  {
  }

  /** One more instance: the stage changes nothing exactly when it changes nothing before and at that one. */
  lemma SizedPartNext(first: map<Uri, InstanceInfo>, li: map<Uri, InstanceInfo>, instances: map<Uri, InstanceInfo>, done: seq<Uri>, u: Uri,
                      ls: map<Name, ShareInfo>, condemned: set<Uri>, stuck: set<Uri>, sound: bool, exact: bool)
    requires u in li && u !in done && HalfSized(first, li, instances, ls, done, condemned, stuck, sound, exact)
    ensures li[u] == first[u]
    ensures SizedPart(first, done + [u], ls) == first <==> SizedPart(first, done, ls) == first && Sized(first[u], ls) == first[u]
  {
    assert HalfSizedAt(first[u], li[u], ls, false, sound && u !in stuck);
    var part, next := SizedPart(first, done, ls), SizedPart(first, done + [u], ls);
    assert next == part[u := Sized(first[u], ls)] by { SizedPartStep(first, done, u, ls); }
    assert part[u] == first[u];
    if next == first {
      assert next[u] == Sized(first[u], ls);
      assert forall v | v in first && v != u :: part[v] == next[v];
    }
  }

  /** Half way, an instance still to come is as it was and one that is done is provided for. */
  ghost predicate HalfSizedAt(first: InstanceInfo, i: InstanceInfo, ls: map<Name, ShareInfo>, done: bool, provided: bool) {
    && i == first.(capacity := i.capacity)
    && (done || i == first)
    && (done && provided ==> Provided(i, ls))
  }

  /** An update that was to give the instance another capacity has failed since. */
  ghost predicate Refused(u: Uri, i: InstanceInfo, before: nat, refused: seq<(Uri, int)>) {
    exists k :: before <= k < |refused| && refused[k].0 == u && refused[k].1 != i.capacity
  }

  /** Each of these instances was refused the capacity it needs. */
  ghost predicate AllRefused(stuck: set<Uri>, li: map<Uri, InstanceInfo>, before: nat, refused: seq<(Uri, int)>) {
    forall u | u in stuck :: u in li && Refused(u, li[u], before, refused)
  }

  lemma RefusedStep(stuck: set<Uri>, u: Uri, halted: bool, li: map<Uri, InstanceInfo>, li': map<Uri, InstanceInfo>,
                    before: nat, refused: seq<(Uri, int)>, refused': seq<(Uri, int)>)
    requires AllRefused(stuck, li, before, refused) && refused <= refused' && u !in stuck
    requires u in li' && li' == li[u := li'[u]] && (halted ==> Refused(u, li'[u], |refused|, refused') && before <= |refused|)
    ensures AllRefused(if halted then stuck + {u} else stuck, li', before, refused')
  {
    forall v | v in stuck ensures Refused(v, li'[v], before, refused') {
      assert Refused(v, li[v], before, refused);
      var k :| before <= k < |refused| && refused[k].0 == v && refused[k].1 != li[v].capacity;
      assert refused'[k] == refused[k];
    }
    if halted {
      var k :| |refused| <= k < |refused'| && refused'[k].0 == u && refused'[k].1 != li'[u].capacity;
      assert before <= k;
    }
  }

  /** The stage half way, as copied and, when every call has succeeded, as stored. */
  ghost predicate HalfSized(first: map<Uri, InstanceInfo>, li: map<Uri, InstanceInfo>, instances: map<Uri, InstanceInfo>,
                            ls: map<Name, ShareInfo>, done: seq<Uri>, condemned: set<Uri>, stuck: set<Uri>, sound: bool, exact: bool) {
    && li.Keys == first.Keys && (forall u | u in condemned || u in stuck :: u in done)
    && (forall u | u in li :: HalfSizedAt(first[u], li[u], ls, u in done, sound && u !in stuck))
    && (exact ==> stuck == {} && instances == SizedPart(first, done, ls))
  }

  lemma HalfSizedStep(first: map<Uri, InstanceInfo>, li: map<Uri, InstanceInfo>, instances: map<Uri, InstanceInfo>, ls: map<Name, ShareInfo>,
                      li': map<Uri, InstanceInfo>, instances': map<Uri, InstanceInfo>, done: seq<Uri>, u: Uri,
                      condemned: set<Uri>, condemned': set<Uri>, stuck: set<Uri>, halted: bool, sound: bool, exact: bool)
    requires u in li && u !in done && HalfSized(first, li, instances, ls, done, condemned, stuck, sound, exact)
    requires u in li' && li' == li[u := li'[u]] && li'[u] == li[u].(capacity := li'[u].capacity)
    requires condemned' <= condemned + {u} && (sound && !halted ==> Provided(li'[u], ls))
    requires exact ==> !halted && instances' == instances[u := Sized(li[u], ls)]
    ensures HalfSized(first, li', instances', ls, done + [u], condemned', if halted then stuck + {u} else stuck, sound, exact)
  {
    assert HalfSizedAt(first[u], li[u], ls, false, sound && u !in stuck);
    SizedPartStep(first, done, u, ls);
    forall v | v in li'
      ensures HalfSizedAt(first[v], li'[v], ls, v in done + [u], sound && v !in if halted then stuck + {u} else stuck)
    {
      assert HalfSizedAt(first[v], li[v], ls, v in done, sound && v !in stuck);
    }
  }

  lemma HalfSizedStart(li: map<Uri, InstanceInfo>, instances: map<Uri, InstanceInfo>, ls: map<Name, ShareInfo>, sound: bool, exact: bool)
    requires exact ==> instances == li
    ensures HalfSized(li, li, instances, ls, [], {}, {}, sound, exact) && Marked(li, {}) == li && SizedPart(li, [], ls) == li
  {
    assert SizedPart(li, [], ls) == li;
  }

  /** Every instance that is not stuck is provided for. */
  ghost predicate AllProvided(li: map<Uri, InstanceInfo>, ls: map<Name, ShareInfo>, stuck: set<Uri>) {
    forall u | u in li && u !in stuck :: Provided(li[u], ls)
  }

  lemma HalfSizedDone(first: map<Uri, InstanceInfo>, li: map<Uri, InstanceInfo>, instances: map<Uri, InstanceInfo>, ls: map<Name, ShareInfo>,
                      order: seq<Uri>, condemned: set<Uri>, stuck: set<Uri>, sound: bool, exact: bool)
    requires HalfSized(first, li, instances, ls, order, condemned, stuck, sound, exact) && forall u :: u in order <==> u in first
    ensures OnlySized(first, li) && (sound ==> AllProvided(li, ls, stuck))
    ensures SizedPart(first, order, ls) == SizedAll(first, ls)
    ensures exact ==> stuck == {} && instances == SizedAll(first, ls)
  {
    forall u | u in li ensures HalfSizedAt(first[u], li[u], ls, true, sound && u !in stuck) {
    }
  }

  /** The copies of the instances with those marked that the round has condemned. */
  ghost function Marked(li: map<Uri, InstanceInfo>, condemned: set<Uri>): map<Uri, InstanceInfo> {
    map u | u in li :: if u in condemned then li[u].(deleting := true) else li[u]
  }

  /** The instance is to be large enough for every share it lists, as far as an instance can be. */
  ghost predicate Covers(i: InstanceInfo, ls: map<Name, ShareInfo>) {
    i.capacity >= Min(Sum(CapsOf(i.Names(), Live(ls))), MAX_INSTANCE)
  }

  /** No share the instance lists may be larger than its share count allows for. */
  ghost predicate Admits(i: InstanceInfo, g: Pools) {
    forall n | n in i.Names() :: MaxSharePerVolume(g.feature, g.paramsOf(n)) * g.MaxCount(i) <= MAX_INSTANCE
  }

  /** The instance is on its way out, empty, or to be large enough for what it lists. */
  ghost predicate Provided(i: InstanceInfo, ls: map<Name, ShareInfo>) {
    i.deleting || i.Names() == [] || Covers(i, ls)
  }

  /** The stage changes nothing of an instance but its deletion mark and its wanted capacity. */
  ghost predicate OnlySized(before: map<Uri, InstanceInfo>, after: map<Uri, InstanceInfo>) {
    && after.Keys == before.Keys
    && forall u | u in before :: after[u] == before[u].(capacity := after[u].capacity)
  }

  /** Marking an empty instance, or giving it another wanted capacity, keeps the invariant. */
  lemma SizingKeeps(w: World, g: Pools, u: Uri, i: InstanceInfo, ls: map<Name, ShareInfo>)
    requires Safe(w, g) && CopiesSafe(ls, w.instances, g) && u in w.instances
    requires i == w.instances[u].(capacity := i.capacity) || (i == w.instances[u].(deleting := true) && InstanceEmpty(i))
    ensures Safe(w.(instances := w.instances[u := i]), g) && CopiesSafe(ls, w.instances[u := i], g)
  {
    InstanceChangeKeeps(w, g, u, i);
    CopiesStaySafe(ls, w.instances, w.instances[u := i], u, g);
  }

  lemma {:induction false} CapsAppend(a: seq<Name>, b: seq<Name>, shares: map<Name, ShareInfo>)
    ensures CapsOf(a + b, shares) == CapsOf(a, shares) + CapsOf(b, shares)
  {
    if a == [] {
      assert a + b == b;
    } else {
      assert (a + b)[1..] == a[1..] + b;
      CapsAppend(a[1..], b, shares);
    }
  }

  lemma SumOfCapsStep(names: seq<Name>, k: nat, shares: map<Name, ShareInfo>)
    requires k < |names|
    ensures Sum(CapsOf(names[..k + 1], shares))
         == Sum(CapsOf(names[..k], shares)) + if names[k] in shares then shares[names[k]].capacity else 0
  {
    assert names[..k + 1] == names[..k] + [names[k]];
    CapsAppend(names[..k], [names[k]], shares);
    assert [names[k]][1..] == [];
    var last := CapsOf([names[k]], shares);
    assert last == if names[k] in shares then [shares[names[k]].capacity] else [];
    assert last != [] ==> last[1..] == [];
    SumAppend(CapsOf(names[..k], shares), last);
  }

  lemma {:induction false} CapsBounded(names: seq<Name>, shares: map<Name, ShareInfo>, limit: int)
    requires forall s | s in shares && s in names :: 0 <= shares[s].capacity <= limit
    ensures |CapsOf(names, shares)| <= |names|
    ensures forall c | c in CapsOf(names, shares) :: 0 <= c <= limit
  {
    if names != [] {
      CapsBounded(names[1..], shares, limit);
    }
  }

  /** The clamp never cuts into shares that the instance's share count allows for. */
  lemma ListedSharesFit(i: InstanceInfo, ls: map<Name, ShareInfo>, g: Pools)
    requires InstanceInPool(i, g) && Admits(i, g) && forall s | s in ls :: ShareInPool(s, ls[s], g)
    ensures 0 <= Sum(CapsOf(i.Names(), Live(ls))) <= MAX_INSTANCE
  {
    var count := g.MaxCount(i);
    CountTimesSizeIsMax(g.feature, i.params);
    forall s | s in Live(ls) && s in i.Names() ensures 0 <= ls[s].capacity <= MAX_INSTANCE / count {
      FitsTimes(MaxSharePerVolume(g.feature, g.paramsOf(s)), count);
    }
    CapsBounded(i.Names(), Live(ls), MAX_INSTANCE / count);
    SumFits(CapsOf(i.Names(), Live(ls)), count);
  }

  /** A clamped target computed from at least the shares' capacities covers them, up to the largest instance. */
  lemma TargetCovers(i: InstanceInfo, ls: map<Name, ShareInfo>, total: int, g: Pools)
    requires forall s | s in ls :: ShareInPool(s, ls[s], g)
    requires total >= Sum(CapsOf(i.Names(), Live(ls)))
    ensures Covers(i.(capacity := NewCapacity(total, i.StatusOrNew().stepGb)), ls)
    ensures InstanceInPool(i, g) && Admits(i, g) ==>
              NewCapacity(total, i.StatusOrNew().stepGb) >= Sum(CapsOf(i.Names(), Live(ls)))
  {
    SumOfCapsIsNatural(i.Names(), Live(ls));
    ClampCovers(total, i.StatusOrNew().stepGb);
    if InstanceInPool(i, g) && Admits(i, g) { ListedSharesFit(i, ls, g); }
  }

  lemma {:induction false} SumOfCapsIsNatural(names: seq<Name>, shares: map<Name, ShareInfo>)
    requires forall s | s in shares :: shares[s].capacity >= 0
    ensures Sum(CapsOf(names, shares)) >= 0
  {
    if names != [] {
      SumOfCapsIsNatural(names[1..], shares);
      assert CapsOf(names, shares) == (if names[0] in shares then [shares[names[0]].capacity] else []) + CapsOf(names[1..], shares);
      if names[0] in shares {
        assert CapsOf(names, shares)[1..] == CapsOf(names[1..], shares);
      } else {
        assert CapsOf(names, shares) == CapsOf(names[1..], shares);
      }
    }
  }

  // Exactly when the clamp cuts.

  /** The sizes the named shares may grow to. */
  function LimitsOf(names: seq<Name>, g: Pools): seq<int> {
    if names == [] then [] else [MaxSharePerVolume(g.feature, g.paramsOf(names[0]))] + LimitsOf(names[1..], g)
  }

  /**
   * Whatever sizes the listed shares take within their limits, an instance can be large enough for them:
   * that holds exactly when it can for the limits themselves.
   */
  lemma FitsWhateverTheSizes(names: seq<Name>, g: Pools)
    ensures (forall ls: map<Name, ShareInfo> :: AllInPool(ls, g) ==> Sum(CapsOf(names, Live(ls))) <= MAX_INSTANCE)
       <==> Sum(LimitsOf(names, g)) <= MAX_INSTANCE
  {
    var largest := map n | n in names :: ShareInfo(false, g.tagOf(n), g.paramsOf(n), MaxSharePerVolume(g.feature, g.paramsOf(n)), None);
    forall n | n in largest ensures ShareInPool(n, largest[n], g) {
      CountTimesSizeIsMax(g.feature, g.paramsOf(n));
    }
    assert AllInPool(largest, g);
    LargestAreLimits(names, largest, g);
    forall ls: map<Name, ShareInfo> | AllInPool(ls, g) ensures Sum(CapsOf(names, Live(ls))) <= Sum(LimitsOf(names, g)) {
      CapsBelowLimits(names, ls, g);
    }
  }

  ghost predicate AllInPool(ls: map<Name, ShareInfo>, g: Pools) {
    forall s | s in ls :: ShareInPool(s, ls[s], g)
  }

  lemma {:induction false} LargestAreLimits(names: seq<Name>, largest: map<Name, ShareInfo>, g: Pools)
    requires forall n | n in names :: n in Live(largest) && largest[n].capacity == MaxSharePerVolume(g.feature, g.paramsOf(n))
    ensures CapsOf(names, Live(largest)) == LimitsOf(names, g)
  {
    if names != [] {
      LargestAreLimits(names[1..], largest, g);
      assert names[0] in names;
    }
  }

  lemma {:induction false} CapsBelowLimits(names: seq<Name>, ls: map<Name, ShareInfo>, g: Pools)
    requires AllInPool(ls, g)
    ensures Sum(CapsOf(names, Live(ls))) <= Sum(LimitsOf(names, g))
  {
    if names != [] {
      CapsBelowLimits(names[1..], ls, g);
      CountTimesSizeIsMax(g.feature, g.paramsOf(names[0]));
      assert LimitsOf(names, g)[1..] == LimitsOf(names[1..], g);
      if names[0] in Live(ls) {
        assert CapsOf(names, Live(ls))[1..] == CapsOf(names[1..], Live(ls));
      } else {
        assert CapsOf(names, Live(ls)) == CapsOf(names[1..], Live(ls));
      }
    }
  }

  /**
   * Two StorageClasses with one tag, one for volumes of up to 128 GiB and one for up to 1 TiB: an instance
   * of the first lists ten shares of the second and has room for an eleventh. All limits are kept, and the
   * clamp leaves the instance 1 TiB short.
   */
  lemma MixedSizesOverfill(g: Pools, names: seq<Name>, s: Name, status: InstanceStatus)
    requires g.feature && Distinct(names + [s]) && |names| == 10 && status.shareNames == names && status.phase == Ready
    requires forall n | n in names + [s] :: g.tagOf(n) == "t" && g.paramsOf(n) == Size(TB)
    ensures
      var i := InstanceInfo(false, 1, "t", Size(128 * GB), MIN_INSTANCE, Some(status));
      var ls := map n | n in names + [s] :: ShareInfo(false, "t", Size(TB), TB, None);
      && Fits(i, ls[s], g) && InstanceInPool(WithShare(i, s), g) && AllInPool(ls, g)
      && Sum(CapsOf(WithShare(i, s).Names(), ls)) == 11 * TB
      && TargetCapacity(WithShare(i, s), ls) == MAX_INSTANCE && MAX_INSTANCE == 10 * TB
  {
    var i := InstanceInfo(false, 1, "t", Size(128 * GB), MIN_INSTANCE, Some(status));
    var ls := map n | n in names + [s] :: ShareInfo(false, "t", Size(TB), TB, None);
    LastIsNew(names, s);
    assert MaxSharePerInstance(true, Size(128 * GB)) == 80;
    assert WithShare(i, s).Names() == names + [s];
    ElevenTooMany(WithShare(i, s), ls);
  }

  lemma LastIsNew(names: seq<Name>, s: Name)
    requires Distinct(names + [s])
    ensures s !in names
  {
    forall k | 0 <= k < |names| ensures names[k] != s {
      assert (names + [s])[k] != (names + [s])[|names|];
    }
  }

  lemma ElevenTooMany(i: InstanceInfo, ls: map<Name, ShareInfo>)
    requires |i.Names()| == 11 && forall n | n in i.Names() :: n in ls && ls[n].capacity == TB
    ensures Sum(CapsOf(i.Names(), ls)) == 11 * TB && TargetCapacity(i, ls) == MAX_INSTANCE
  {
    SumOfEqual(i.Names(), ls, TB);
    var stepGb := i.StatusOrNew().stepGb;
    AlignIsLeastMultiple(11 * TB, (if stepGb == 0 then DEFAULT_STEP_GB else stepGb) * GB);
  }

  lemma SumOfEqual(names: seq<Name>, shares: map<Name, ShareInfo>, c: int)
    requires forall n | n in names :: n in shares && shares[n].capacity == c
    ensures Sum(CapsOf(names, shares)) == |names| * c
  {
    EqualCaps(names, shares, c);
    SumRepeat(c, |names|);
  }

  lemma {:induction false} EqualCaps(names: seq<Name>, shares: map<Name, ShareInfo>, c: int)
    requires forall n | n in names :: n in shares && shares[n].capacity == c
    ensures CapsOf(names, shares) == Repeat(c, |names|)
  {
    if names != [] {
      EqualCaps(names[1..], shares, c);
      assert names[0] in names;
    }
  }

  /** Sizing once is enough. */
  lemma SizedTwice(i: InstanceInfo, shares: map<Name, ShareInfo>)
    ensures Sized(Sized(i, shares), shares) == Sized(i, shares)
  {
  }

  /** Nothing is left to repair, place, condemn or resize. */
  ghost predicate Quiet(li: map<Uri, InstanceInfo>, ls: map<Name, ShareInfo>, g: Pools) {
    AllSettled(li, ls, g) && NoneToPlace(li, ls, g) && SizedAll(li, ls) == li
  }

  /** With nothing left to place, sizing leaves everything quiet exactly when everything is settled. */
  lemma SizedIsQuiet(li: map<Uri, InstanceInfo>, ls: map<Name, ShareInfo>, g: Pools)
    requires NoneToPlace(li, ls, g)
    ensures Quiet(SizedAll(li, ls), ls, g) <==> AllSettled(li, ls, g)
  {
    var li' := SizedAll(li, ls);
    assert li'.Keys == li.Keys;
    forall u | u in li ensures Sized(li'[u], ls) == li'[u] && (PointsBack(li', ls, u, li.Keys, g) <==> PointsBack(li, ls, u, li.Keys, g)) {
      SizedTwice(li[u], ls);
    }
    forall s | s in ls ensures ls[s].Handle() != "" || Unassignable(ls[s], li', g) {
      SizedKeepsPlacement(s, ls[s], li, ls, g);
    }
  }

  /**
   * What a fault-free assignment stage does for a live share with a pool: it has an instance afterwards
   * unless its pool has neither room nor StorageClass; the instance is the one it pointed to, one that
   * listed it already, or one of its own pool that lists it now.
   */
  ghost predicate AssignedWell(before: map<Name, ShareInfo>, first: map<Uri, InstanceInfo>,
                               ls: map<Name, ShareInfo>, li: map<Uri, InstanceInfo>, g: Pools) {
    ls.Keys == before.Keys && forall s | s in before :: AssignedWellAt(s, before[s], first, ls[s], li, g)
  }

  ghost predicate AssignedWellAt(s: Name, was: ShareInfo, first: map<Uri, InstanceInfo>, a: ShareInfo, li: map<Uri, InstanceInfo>, g: Pools) {
    && (a.Handle() == "" ==> a == was && Unassignable(a, li, g))
    && (a.Handle() != "" ==> a.Handle() == was.Handle() || Lists(first, a.Handle(), s) || Placed(s, a, li))
  }

  /** Every live share whose pool has a StorageClass has an instance. */
  ghost predicate AllAssigned(ls: map<Name, ShareInfo>, g: Pools) {
    forall s | s in ls && !ls[s].deleting && g.HasClass(ls[s].tag) :: ls[s].Handle() != ""
  }

  lemma AssignedWellAssigns(before: map<Name, ShareInfo>, first: map<Uri, InstanceInfo>, ls: map<Name, ShareInfo>, li: map<Uri, InstanceInfo>, g: Pools)
    requires AssignedWell(before, first, ls, li, g)
    ensures AllAssigned(ls, g)
  {
    forall s | s in ls ensures AssignedWellAt(s, before[s], first, ls[s], li, g) {
    }
  }

  /** Sizing makes no room and moves no share. */
  lemma SizedKeepsPlacement(s: Name, a: ShareInfo, li: map<Uri, InstanceInfo>, ls: map<Name, ShareInfo>, g: Pools)
    ensures Unassignable(a, li, g) ==> Unassignable(a, SizedAll(li, ls), g)
    ensures Placed(s, a, li) ==> Placed(s, a, SizedAll(li, ls))
  {
    forall u | u in li && !Fits(li[u], a, g) ensures !Fits(SizedAll(li, ls)[u], a, g) {
    }
  }

  lemma AssignedWellStages(first: map<Uri, InstanceInfo>, before: map<Name, ShareInfo>,
                           claimed: map<Name, ShareInfo>, placed: map<Uri, InstanceInfo>, ls: map<Name, ShareInfo>, g: Pools)
    requires HandlesKept(before, claimed) && ClaimedWhereListed(first, before, claimed)
    requires HandlesKept(claimed, ls) && NewlyPlaced(claimed, placed, ls) && NoneToPlace(placed, ls, g)
    ensures AssignedWell(before, first, ls, SizedAll(placed, ls), g)
  {
    forall s | s in before ensures AssignedWellAt(s, before[s], first, ls[s], SizedAll(placed, ls), g) {
      SizedKeepsPlacement(s, ls[s], placed, ls, g);
    }
  }

  /** A share listed by "a" that points to "b", which has no object, in a pool without StorageClass: nothing is repaired. */
  lemma StrandedExample(g: Pools)
    requires g.classes == {}
    ensures
      var li := map["a" := InstanceInfo(false, 1, "t", Absent, MIN_INSTANCE, Some(InstanceStatus(["s"], 0, Ready, 0, "", "")))];
      var ls := map["s" := ShareInfo(false, "t", Absent, GB, Some(ShareStatus("b", 0, Unset, "")))];
      AllSettled(li, ls, g) && Lists(li, "a", "s") && ls["s"].Handle() != "a"
  {
  }
}
