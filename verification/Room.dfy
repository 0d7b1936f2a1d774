/**
 * Whether an instance has room for its shares, for what is running, and for the request that is between
 * its two phases; and how every start and every completion keeps that.
 */
module Room {
  import opened Wrappers
  import opened Uris
  import opened Capacity
  import opened Operations

  /**
   * A request between its two phases: the instance operation it waits for, the share it will create or
   * grow, the share's new size, and how much of it is new.
   */
  datatype Ticket = Ticket(opId: nat, share: string, bytes: int, need: int, create: bool)

  predicate Updates(r: Operation, i: Instance) {
    r.kind.InstanceUpdate? && r.instance == i
  }

  ghost predicate SharesFit(i: Instance, shares: seq<ShareRecord>, running: seq<Operation>, count: int) {
    && NamesDiffer(shares) && |shares| <= count
    && forall s | s in shares :: 0 <= s.capacity && Promise(i, s, running) * count <= MAX_INSTANCE
  }

  /** What the waiting request was promised, and that only shares being deleted are worked on meanwhile. */
  ghost predicate TicketFits(i: Instance, shares: seq<ShareRecord>, running: seq<Operation>, t: Ticket, count: int) {
    && 0 <= t.need && 0 <= t.bytes && t.bytes * count <= MAX_INSTANCE
    && (if t.create then t.need == t.bytes && |shares| < count
        else forall s | s in shares && s.name == t.share :: s.capacity >= t.bytes - t.need)
    && forall r | r in running && r.instance == i :: r.kind.ShareDelete? || (r.id == t.opId && r.OnInstance())
  }

  function Need(t: Option<Ticket>): int {
    if t.Some? then t.value.need else 0
  }

  /**
   * The instance is no larger than allowed and holds no more shares than allowed, none of them too large;
   * its shares, with what is running, fit; and so will the waiting request once its instance operation
   * is through.
   */
  ghost predicate Roomy(i: Instance, h: Host, running: seq<Operation>, t: Option<Ticket>, count: int) {
    var d := Demand(i, h.shares, running);
    && SharesFit(i, h.shares, running, count) && (forall r | r in running && r.instance == i :: r.bytes >= 0)
    && (t.Some? ==> TicketFits(i, h.shares, running, t.value, count))
    && d <= h.capacity <= MAX_INSTANCE
    && (forall r | r in running && Updates(r, i) :: d + Need(t) <= r.bytes <= MAX_INSTANCE)
    && ((forall r | r in running :: !Updates(r, i)) ==> d + Need(t) <= h.capacity)
  }

  /** What the invariant means for the instance as it is. */
  lemma RoomyMeans(i: Instance, h: Host, running: seq<Operation>, t: Option<Ticket>, count: int)
    requires Roomy(i, h, running, t, count)
    ensures 0 <= Sum(Capacities(h.shares)) <= h.capacity <= MAX_INSTANCE && |h.shares| <= count
  {
    DemandAtLeastSum(i, h.shares, running);
    SumIsNatural(h.shares);
  }

  lemma {:induction false} SumIsNatural(shares: seq<ShareRecord>)
    requires forall s | s in shares :: 0 <= s.capacity
    ensures 0 <= Sum(Capacities(shares))
  {
    if shares != [] {
      SumIsNatural(shares[1..]);
      assert shares[0] in shares;
    }
  }

  // Two lists of running operations compared.

  /** No share of the instance is being grown that was not before. */
  ghost predicate NoNewRaise(i: Instance, running: seq<Operation>, running': seq<Operation>) {
    forall r: Operation | r in running' && r.kind.ShareUpdate? && r.instance == i :: r in running
  }

  lemma NoNewRaiseFits(i: Instance, shares: seq<ShareRecord>, running: seq<Operation>, running': seq<Operation>, count: int)
    requires NoNewRaise(i, running, running') && SharesFit(i, shares, running, count)
    ensures SharesFit(i, shares, running', count)
    ensures Demand(i, shares, running') <= Demand(i, shares, running)
  {
    forall s: ShareRecord ensures Promise(i, s, running') <= Promise(i, s, running) {
      PromiseIsBound(i, s, running);
      PromiseAtMost(i, s, running', Promise(i, s, running));
    }
    forall s | s in shares ensures Promise(i, s, running') * count <= MAX_INSTANCE {
      Scale(Promise(i, s, running'), Promise(i, s, running), count);
    }
    DemandAtMost(i, shares, running, shares, running');
  }

  // Starts and completions, seen from the instance they concern, or do not concern.

  lemma RoomyElsewhere(i: Instance, h: Host, h': Host, running: seq<Operation>, running': seq<Operation>, t: Option<Ticket>, count: int)
    requires Roomy(i, h, running, t, count) && h' == h.(state := h'.state)
    requires forall r: Operation | r.instance == i :: r in running <==> r in running'
    ensures Roomy(i, h', running', t, count)
  {
    NoNewRaiseFits(i, h.shares, running, running', count);
    forall r | r in running && Updates(r, i) ensures r in running' {
    }
  }

  /** Creating a share: the first phase has checked the room, or the ticket reserved it. */
  lemma CreateShareKeepsRoom(i: Instance, h: Host, running: seq<Operation>, t: Option<Ticket>, count: int, r: Operation)
    requires Roomy(i, h, running, t, count) && r.kind.ShareCreate? && r.instance == i && r.bytes >= 0
    requires forall x | x in running && x.instance == i :: !x.OnInstance() && x.share != r.share
    requires forall s | s in h.shares :: s.name != r.share
    requires if t.Some? then t.value.create && t.value.bytes == r.bytes
             else |h.shares| < count && r.bytes * count <= MAX_INSTANCE && Demand(i, h.shares, running) + r.bytes <= h.capacity
    ensures Roomy(i, h.(shares := h.shares + [ShareRecord(r.share, r.bytes)]), running + [r], None, count)
  {
    var s := ShareRecord(r.share, r.bytes);
    NoNewRaiseFits(i, h.shares, running, running + [r], count);
    DemandAppend(i, h.shares, s, running + [r]);
    PromiseAtMost(i, s, running + [r], r.bytes);
    PromiseIsBound(i, s, running + [r]);
  }

  /** Growing a share. */
  lemma UpdateShareKeepsRoom(i: Instance, h: Host, running: seq<Operation>, t: Option<Ticket>, count: int, r: Operation, need: int)
    requires Roomy(i, h, running, t, count) && r.kind.ShareUpdate? && r.instance == i
    requires forall x | x in running && x.instance == i :: !x.OnInstance() && x.share != r.share
    requires 0 <= r.bytes && r.bytes * count <= MAX_INSTANCE && 0 <= need
    requires forall s | s in h.shares && s.name == r.share :: s.capacity >= r.bytes - need
    requires if t.Some? then need == t.value.need else Demand(i, h.shares, running) + need <= h.capacity
    ensures Roomy(i, h, running + [r], None, count)
  {
    forall s | s in h.shares
      ensures Promise(i, s, running) >= s.capacity && Promise(i, s, running + [r]) * count <= MAX_INSTANCE
    {
      PromiseIsBound(i, s, running);
      var bound := Max(Promise(i, s, running), r.bytes);
      PromiseAtMost(i, s, running + [r], bound);
      Scale(Promise(i, s, running + [r]), bound, count);
    }
    DemandRaise(i, h.shares, running, r, need);
  }

  /** Deleting a share, or the empty instance, takes no room. */
  lemma DeleteKeepsRoom(i: Instance, h: Host, running: seq<Operation>, t: Option<Ticket>, count: int, r: Operation)
    requires Roomy(i, h, running, t, count) && r.instance == i
    requires r.bytes >= 0 && (r.kind.ShareDelete? || (r.kind.InstanceDelete? && t.None?))
    ensures Roomy(i, h, running + [r], t, count)
  {
    NoNewRaiseFits(i, h.shares, running, running + [r], count);
    assert forall x | x in running :: x in running + [r];
  }

  /** Resizing an instance nothing runs on: to what its shares and the waiting request need, or more. */
  lemma UpdateInstanceKeepsRoom(i: Instance, h: Host, running: seq<Operation>, t: Option<Ticket>, count: int, r: Operation)
    requires Roomy(i, h, running, None, count) && r.kind.InstanceUpdate? && r.instance == i
    requires forall x | x in running :: x.instance != i
    requires t.Some? ==> TicketFits(i, h.shares, running, t.value, count) && t.value.opId == r.id
    requires Sum(Capacities(h.shares)) + Need(t) <= r.bytes <= MAX_INSTANCE
    ensures Roomy(i, h, running + [r], t, count)
  {
    NoNewRaiseFits(i, h.shares, running, running + [r], count);
    DemandAtLeastSum(i, h.shares, running);
    SumIsNatural(h.shares);
    assert r in running + [r];
  }

  /** A new instance for a request. */
  lemma CreateInstanceKeepsRoom(i: Instance, h: Host, running: seq<Operation>, t: Ticket, count: int, r: Operation)
    requires r.kind.InstanceCreate? && r.instance == i && r.bytes >= 0 && forall x | x in running :: x.instance != i
    requires h.shares == [] && t.create && t.need == t.bytes && t.opId == r.id
    requires 0 <= t.bytes <= h.capacity <= MAX_INSTANCE && t.bytes * count <= MAX_INSTANCE && count > 0
    ensures Roomy(i, h, running + [r], Some(t), count)
  {
  }

  // Completions.

  /** What the end of an operation leaves of its instance. */
  function Finished(h: Host, r: Operation, ok: bool): Option<Host> {
    match r.kind
    case InstanceCreate => if ok then Some(h.(state := "READY")) else None
    case InstanceUpdate => Some(if ok then h.(capacity := r.bytes) else h)
    case InstanceDelete => if ok then None else Some(h)
    case ShareCreate => Some(if ok then h else h.(shares := WithoutShare(h.shares, r.share)))
    case ShareUpdate => Some(if ok then h.(shares := Resized(h.shares, r.share, r.bytes)) else h)
    case ShareDelete => Some(if ok then h.(shares := WithoutShare(h.shares, r.share)) else h)
  }

  /** A request whose instance operation fails is over. */
  function TicketAfter(t: Option<Ticket>, r: Operation, ok: bool): Option<Ticket> {
    if t.Some? && t.value.opId == r.id && !ok then None else t
  }

  lemma CompletionKeepsRoom(i: Instance, h: Host, running: seq<Operation>, k: nat, t: Option<Ticket>, count: int, ok: bool)
    requires Exclusive(running) && k < |running| && running[k].instance == i && Roomy(i, h, running, t, count)
    requires Finished(h, running[k], ok).Some?
    ensures Roomy(i, Finished(h, running[k], ok).value, Removed(running, k), TicketAfter(t, running[k], ok), count)
  {
    if running[k].OnInstance() {
      InstanceDoneKeepsRoom(i, h, running, k, t, count, ok);
    } else {
      ShareDoneKeepsRoom(i, h, running, k, t, count, ok);
    }
  }

  lemma OthersOn(running: seq<Operation>, k: nat, x: Operation)
    requires Exclusive(running) && k < |running| && x in Removed(running, k) && x.instance == running[k].instance
    ensures !running[k].OnInstance() && !x.OnInstance() && x in running && x.id != running[k].id
  {
    RemoveKeepsExclusive(running, k);
    var j :| 0 <= j < |running| && running[j] == x;
    assert Compatible(running[if j < k then j else k], running[if j < k then k else j]);
  }

  lemma InstanceDoneKeepsRoom(i: Instance, h: Host, running: seq<Operation>, k: nat, t: Option<Ticket>, count: int, ok: bool)
    requires Exclusive(running) && k < |running| && running[k].instance == i && Roomy(i, h, running, t, count)
    requires running[k].OnInstance() && Finished(h, running[k], ok).Some?
    ensures Roomy(i, Finished(h, running[k], ok).value, Removed(running, k), TicketAfter(t, running[k], ok), count)
  {
    var rest := Removed(running, k);
    forall x | x in rest ensures x in running && x.instance != i {
      RemoveKeepsExclusive(running, k);
      if x.instance == i { OthersOn(running, k, x); }
    }
    NoNewRaiseFits(i, h.shares, running, rest, count);
    assert running[k] in running;
    if !running[k].kind.InstanceUpdate? {
      forall x | x in running ensures !Updates(x, i) {
        RemoveKeepsExclusive(running, k);
        if x != running[k] { assert x in rest; }
      }
    }
  }

  lemma ShareDoneKeepsRoom(i: Instance, h: Host, running: seq<Operation>, k: nat, t: Option<Ticket>, count: int, ok: bool)
    requires Exclusive(running) && k < |running| && running[k].instance == i && Roomy(i, h, running, t, count)
    requires !running[k].OnInstance()
    ensures Roomy(i, Finished(h, running[k], ok).value, Removed(running, k), TicketAfter(t, running[k], ok), count)
  {
    var r, rest := running[k], Removed(running, k);
    assert r in running && r.bytes >= 0;
    RemoveKeepsExclusive(running, k);
    NoNewRaiseFits(i, h.shares, running, rest, count);
    forall x | x in running ensures !Updates(x, i) {
      if x != r && x.instance == i { OthersOn(running, k, x); }
    }
    if (r.kind.ShareCreate? && !ok) || (r.kind.ShareDelete? && ok) {
      WithoutShareIs(h.shares, r.share);
      DemandWithout(i, h.shares, r.share, rest);
    } else if r.kind.ShareUpdate? && ok {
      ResizedKeepsRoom(i, h, running, k, count);
    }
  }

  lemma ResizedKeepsRoom(i: Instance, h: Host, running: seq<Operation>, k: nat, count: int)
    requires k < |running| && running[k].instance == i && running[k].kind.ShareUpdate? && running[k].bytes >= 0
    requires SharesFit(i, h.shares, running, count)
    ensures var shares := Resized(h.shares, running[k].share, running[k].bytes);
            SharesFit(i, shares, Removed(running, k), count)
            && Demand(i, shares, Removed(running, k)) <= Demand(i, h.shares, running)
  {
    var r, rest := running[k], Removed(running, k);
    var shares := Resized(h.shares, r.share, r.bytes);
    forall j | 0 <= j < |shares|
      ensures Promise(i, shares[j], rest) <= Promise(i, h.shares[j], running)
    {
      PromiseIsBound(i, h.shares[j], running);
      PromiseAtMost(i, shares[j], rest, Promise(i, h.shares[j], running));
    }
    forall s | s in shares ensures 0 <= s.capacity && Promise(i, s, rest) * count <= MAX_INSTANCE {
      var j :| 0 <= j < |shares| && shares[j] == s;
      assert h.shares[j] in h.shares;
      Scale(Promise(i, s, rest), Promise(i, h.shares[j], running), count);
    }
    DemandAtMost(i, h.shares, running, shares, rest);
  }
}
