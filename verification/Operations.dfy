/**
 * Instance and share operations as the ops manager sees them: which may run together, and what the
 * running ones may yet do to an instance's room.
 */
module Operations {
  import opened Uris
  import opened Capacity

  datatype Kind = InstanceCreate | InstanceUpdate | InstanceDelete | ShareCreate | ShareUpdate | ShareDelete

  /** A running operation; `share` is empty for instance operations, `bytes` is the size asked for. */
  datatype Operation = Operation(id: nat, kind: Kind, instance: Instance, share: string, bytes: int)
  {
    predicate OnInstance() {
      kind.InstanceCreate? || kind.InstanceUpdate? || kind.InstanceDelete?
    }

    function Target(): string {
      if OnInstance() then InstanceUri(instance) else ShareUri(Share(instance, share))
    }

    function Info(): OpInfo {
      OpInfo(id, kind, Target())
    }

    predicate Valid() {
      ValidInstance(instance) && (OnInstance() || Segment(share))
    }
  }

  /** An operation as listed. */
  datatype OpInfo = OpInfo(id: nat, kind: Kind, target: string)

  /** Two operations that must not run together. */
  predicate Conflict(a: Operation, b: Operation) {
    a.instance == b.instance && (a.OnInstance() || b.OnInstance() || a.share == b.share)
  }

  ghost predicate Compatible(a: Operation, b: Operation) {
    a.id != b.id && !Conflict(a, b)
  }

  /**
   * A running instance operation is the only one on its instance and that instance's shares, and each
   * share has at most one.
   */
  ghost predicate Exclusive(running: seq<Operation>) {
    && (forall r | r in running :: r.Valid())
    && forall j, k | 0 <= j < k < |running| :: Compatible(running[j], running[k])
  }

  function Removed(running: seq<Operation>, k: nat): seq<Operation>
    requires k < |running|
  {
    running[..k] + running[k + 1..]
  }

  lemma StartKeepsExclusive(running: seq<Operation>, r: Operation)
    requires Exclusive(running) && r.Valid()
    requires forall x | x in running :: Compatible(x, r)
    ensures Exclusive(running + [r])
  {
  }

  lemma RemoveKeepsExclusive(running: seq<Operation>, k: nat)
    requires Exclusive(running) && k < |running|
    ensures Exclusive(Removed(running, k))
    ensures forall r :: r in Removed(running, k) <==> r in running && r != running[k]
  {
    forall r ensures r in Removed(running, k) <==> r in running && r != running[k] {
      if r in running && r != running[k] {
        var j :| 0 <= j < |running| && running[j] == r;
        assert r == Removed(running, k)[if j < k then j else j - 1];
      }
      if r in Removed(running, k) {
        var j :| 0 <= j < |running| - 1 && Removed(running, k)[j] == r;
        var l := if j < k then j else j + 1;
        assert running[l] == r;
        assert Compatible(running[if l < k then l else k], running[if l < k then k else l]);
      }
    }
  }

  // What the list read at entry says.

  /** The list still covers what is running. */
  ghost predicate Listed(ops: seq<OpInfo>, running: seq<Operation>) {
    forall r | r in running :: r.Info() in ops
  }

  predicate BusyInstance(i: Instance, ops: seq<OpInfo>) {
    exists op :: op in ops && TargetsInstance(op.target, i)
  }

  predicate BusyTarget(target: string, ops: seq<OpInfo>) {
    exists op :: op in ops && op.target == target
  }

  /** No listed operation passes the prefix test: nothing is running on the instance or its shares. */
  lemma FreeInstance(i: Instance, ops: seq<OpInfo>, running: seq<Operation>)
    requires Exclusive(running) && Listed(ops, running) && ValidInstance(i) && !BusyInstance(i, ops)
    ensures forall r | r in running :: r.instance != i
  {
    forall r | r in running ensures r.instance != i {
      if r.OnInstance() { TestIsOwnership(r.instance, i, "x"); } else { TestIsOwnership(r.instance, i, r.share); }
      assert r.Info() in ops;
    }
  }

  /** And the test refuses only for a reason: some listed operation is on the instance, or mimics it. */
  lemma BusyForAReason(i: Instance, ops: seq<OpInfo>, running: seq<Operation>)
    requires Exclusive(running) && ValidInstance(i) && i != Instance("locations", "instances", "shares")
    requires (forall op | op in ops :: exists r | r in running :: r.Info() == op) && BusyInstance(i, ops)
    ensures exists r | r in running :: r.instance == i
  {
    var op :| op in ops && TargetsInstance(op.target, i);
    var r :| r in running && r.Info() == op;
    if r.OnInstance() { TestIsOwnership(r.instance, i, "x"); } else { TestIsOwnership(r.instance, i, r.share); }
  }

  /** Neither the instance nor the share is the target of a listed operation: a share operation may start. */
  lemma FreeShare(s: Share, ops: seq<OpInfo>, running: seq<Operation>)
    requires Exclusive(running) && Listed(ops, running) && ValidInstance(s.parent) && Segment(s.name)
    requires !BusyTarget(InstanceUri(s.parent), ops) && !BusyTarget(ShareUri(s), ops)
    ensures forall r | r in running && r.instance == s.parent :: !r.OnInstance() && r.share != s.name
  {
    forall r | r in running && r.instance == s.parent ensures !r.OnInstance() && r.share != s.name {
      assert r.Info() in ops;
    }
  }

  /** Something runs that a new operation on this share would be in conflict with. */
  ghost predicate ShareBusy(s: Share, running: seq<Operation>) {
    exists r :: r in running && r.instance == s.parent && (r.OnInstance() || r.share == s.name)
  }

  /** And conversely: a listed target is refused because of an operation in conflict. */
  lemma BusyShareForAReason(s: Share, ops: seq<OpInfo>, running: seq<Operation>)
    requires Exclusive(running) && ValidInstance(s.parent) && Segment(s.name)
    requires forall op | op in ops :: exists r :: r in running && r.Info() == op
    requires BusyTarget(InstanceUri(s.parent), ops) || BusyTarget(ShareUri(s), ops)
    ensures ShareBusy(s, running)
  {
    var op :| op in ops && (op.target == InstanceUri(s.parent) || op.target == ShareUri(s));
    var r :| r in running && r.Info() == op;
    if r.OnInstance() {
      TargetsOwnInstance(s.parent, r.instance, s.name);
    } else {
      TargetsOwnInstance(r.instance, s.parent, r.share);
      ShareUriInjective(Share(r.instance, r.share), s);
    }
  }

  // What is running and the room it may take.

  datatype ShareRecord = ShareRecord(name: string, capacity: int)

  /** An instance as the cloud has it. */
  datatype Host = Host(capacity: int, stepGb: nat, maxShares: int, state: string, shares: seq<ShareRecord>)

  function Capacities(shares: seq<ShareRecord>): seq<int> {
    if shares == [] then [] else [shares[0].capacity] + Capacities(shares[1..])
  }

  predicate Raises(r: Operation, i: Instance, name: string) {
    r.kind.ShareUpdate? && r.instance == i && r.share == name
  }

  /** The size a share may have once what is running is done. */
  function Promise(i: Instance, s: ShareRecord, running: seq<Operation>): int {
    if running == [] then s.capacity
    else Max(Promise(i, s, running[1..]), if Raises(running[0], i, s.name) then running[0].bytes else s.capacity)
  }

  function Promises(i: Instance, shares: seq<ShareRecord>, running: seq<Operation>): seq<int> {
    if shares == [] then [] else [Promise(i, shares[0], running)] + Promises(i, shares[1..], running)
  }

  /** The room the shares of an instance may need once what is running is done. */
  function Demand(i: Instance, shares: seq<ShareRecord>, running: seq<Operation>): int {
    Sum(Promises(i, shares, running))
  }

  lemma {:induction false} PromiseIsBound(i: Instance, s: ShareRecord, running: seq<Operation>)
    ensures Promise(i, s, running) >= s.capacity
    ensures forall r | r in running && Raises(r, i, s.name) :: r.bytes <= Promise(i, s, running)
    ensures Promise(i, s, running) == s.capacity
            || exists r :: r in running && Raises(r, i, s.name) && r.bytes == Promise(i, s, running)
  {
    if running != [] {
      PromiseIsBound(i, s, running[1..]);
    }
  }

  lemma PromiseAtMost(i: Instance, s: ShareRecord, running: seq<Operation>, bound: int)
    requires s.capacity <= bound && forall r | r in running && Raises(r, i, s.name) :: r.bytes <= bound
    ensures Promise(i, s, running) <= bound
  {
    PromiseIsBound(i, s, running);
  }

  lemma {:induction false} DemandAtMost(i: Instance, shares: seq<ShareRecord>, running: seq<Operation>,
                                        shares': seq<ShareRecord>, running': seq<Operation>)
    requires |shares'| == |shares|
    requires forall k | 0 <= k < |shares| :: Promise(i, shares'[k], running') <= Promise(i, shares[k], running)
    ensures Demand(i, shares', running') <= Demand(i, shares, running)
  {
    if shares != [] {
      assert forall k | 0 <= k < |shares[1..]| :: shares[1..][k] == shares[k + 1] && shares'[1..][k] == shares'[k + 1];
      DemandAtMost(i, shares[1..], running, shares'[1..], running');
    }
  }

  lemma {:induction false} DemandAppend(i: Instance, shares: seq<ShareRecord>, s: ShareRecord, running: seq<Operation>)
    ensures Demand(i, shares + [s], running) == Demand(i, shares, running) + Promise(i, s, running)
  {
    if shares == [] {
      assert shares + [s] == [s];
      assert Promises(i, [s], running)[1..] == [];
    } else {
      assert (shares + [s])[1..] == shares[1..] + [s];
      DemandAppend(i, shares[1..], s, running);
    }
  }

  lemma {:induction false} DemandAtLeastSum(i: Instance, shares: seq<ShareRecord>, running: seq<Operation>)
    ensures Demand(i, shares, running) >= Sum(Capacities(shares))
    ensures (forall r | r in running :: r.instance != i) ==> Demand(i, shares, running) == Sum(Capacities(shares))
  {
    if shares != [] {
      PromiseIsBound(i, shares[0], running);
      DemandAtLeastSum(i, shares[1..], running);
    }
  }

  function WithoutShare(shares: seq<ShareRecord>, name: string): seq<ShareRecord> {
    if shares == [] then []
    else (if shares[0].name == name then [] else [shares[0]]) + WithoutShare(shares[1..], name)
  }

  lemma {:induction false} WithoutShareIs(shares: seq<ShareRecord>, name: string)
    ensures |WithoutShare(shares, name)| <= |shares|
    ensures forall s :: s in WithoutShare(shares, name) <==> s in shares && s.name != name
    ensures NamesDiffer(shares) ==> NamesDiffer(WithoutShare(shares, name))
  {
    if shares != [] {
      WithoutShareIs(shares[1..], name);
      var rest := WithoutShare(shares[1..], name);
      if NamesDiffer(shares) {
        assert forall s | s in shares[1..] :: s.name != shares[0].name;
        assert forall k | 0 <= k < |rest| :: rest[k] in rest;
      }
    }
  }

  lemma {:induction false} DemandWithout(i: Instance, shares: seq<ShareRecord>, name: string, running: seq<Operation>)
    requires forall s | s in shares :: s.capacity >= 0
    ensures Demand(i, WithoutShare(shares, name), running) <= Demand(i, shares, running)
  {
    if shares != [] {
      PromiseIsBound(i, shares[0], running);
      DemandWithout(i, shares[1..], name, running);
      assert shares[0] in shares;
      var rest := WithoutShare(shares[1..], name);
      assert ([shares[0]] + rest)[1..] == rest && [] + rest == rest;
    }
  }

  ghost predicate NamesDiffer(shares: seq<ShareRecord>) {
    forall j, k | 0 <= j < k < |shares| :: shares[j].name != shares[k].name
  }

  function Resized(shares: seq<ShareRecord>, name: string, bytes: int): (r: seq<ShareRecord>)
    ensures |r| == |shares|
    ensures forall k | 0 <= k < |r| :: r[k] == if shares[k].name == name then shares[k].(capacity := bytes) else shares[k]
  {
    seq(|shares|, k requires 0 <= k < |shares| => if shares[k].name == name then shares[k].(capacity := bytes) else shares[k])
  }

  /** Starting to grow one share adds no more than what is missing to its new size. */
  lemma {:induction false} DemandRaise(i: Instance, shares: seq<ShareRecord>, running: seq<Operation>, r: Operation, need: int)
    requires NamesDiffer(shares) && r.kind.ShareUpdate? && r.instance == i && need >= 0
    requires forall s | s in shares && s.name == r.share :: Promise(i, s, running) >= r.bytes - need
    ensures Demand(i, shares, running + [r]) <= Demand(i, shares, running) + need
    ensures (forall s | s in shares :: s.name != r.share) ==> Demand(i, shares, running + [r]) <= Demand(i, shares, running)
  {
    if shares != [] {
      var s := shares[0];
      DemandRaise(i, shares[1..], running, r, need);
      PromiseIsBound(i, s, running);
      assert s in shares;
      PromiseAtMost(i, s, running + [r], if s.name == r.share then Promise(i, s, running) + need else Promise(i, s, running));
      assert s.name == r.share ==> forall x | x in shares[1..] :: x.name != r.share;
    }
  }
}
