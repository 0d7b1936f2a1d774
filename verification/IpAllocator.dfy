/** The allocator of unreserved IPv4 blocks: first fit inside a CIDR, with pending reservations. */
module IpAllocator {
  import opened IpBlocks
  import opened Wrappers

  predicate ValidRanges(ranges: set<Cidr>) {
    forall c | c in ranges :: ValidCidr(c)
  }

  /** The CIDR must be at least as wide as the block, and its address aligned for the block. */
  predicate ParseOk(cidr: Cidr, size: nat)
    requires ValidCidr(cidr) && size <= 32
  {
    cidr.len <= size && Aligned(cidr.addr, size)
  }

  predicate Unreserved(block: Cidr, reserved: set<Cidr>)
    requires ValidCidr(block) && ValidRanges(reserved)
  {
    forall r | r in reserved :: !IsOverlap(block, r)
  }

  /** What the block's address set must avoid. */
  ghost predicate Free(block: Cidr, reserved: set<Cidr>)
    requires ValidCidr(block) && ValidRanges(reserved)
  {
    forall r | r in reserved :: !Meets(block, r)
  }

  /** The search from `ip` upwards, one block size at a time, in 32-bit arithmetic. */
  function FirstFit(cidr: Cidr, size: nat, reserved: set<Cidr>, ip: nat): Result<Cidr>
    requires ValidCidr(cidr) && 1 <= size <= 32 && ip < ADDRESSES && ValidRanges(reserved)
    decreases ADDRESSES - ip
  {
    if !Contains(cidr, ip) then Err
    else if Unreserved(Cidr(ip, size), reserved) then Ok(Cidr(ip, size))
    else if ip + Size(size) >= ADDRESSES then Err
    else FirstFit(cidr, size, reserved, ip + Size(size))
  }

  function Allocate(cidr: Cidr, size: nat, reserved: set<Cidr>): Result<Cidr>
    requires ValidCidr(cidr) && 1 <= size <= 32 && ValidRanges(reserved)
  {
    if !ParseOk(cidr, size) then Err
    else MaskKeepsNetwork(cidr.addr, cidr.len); FirstFit(cidr, size, reserved, Mask(cidr.addr, cidr.len))
  }

  /** incrementIP on 32-bit values: the sum wraps, and a wrapped sum is an error. */
  function IncrementIp(ip: nat, step: nat): (r: Result<nat>)
    requires ip < ADDRESSES && 0 < step < ADDRESSES
    ensures r == if ip + step < ADDRESSES then Ok(ip + step) else Err
  {
    var next := (ip + step) % ADDRESSES;
    if next < ip then Err else Ok(next)
  }

  /** A block the caller may be handed: inside the CIDR and aligned for its own size. */
  ghost predicate Candidate(cidr: Cidr, size: nat, block: Cidr)
    requires ValidCidr(cidr)
  {
    && ValidCidr(block) && block.len == size
    && Aligned(block.addr, size)
    && forall ip :: 0 <= ip < ADDRESSES && Contains(block, ip) ==> Contains(cidr, ip)
  }

  lemma UnreservedIsFree(block: Cidr, reserved: set<Cidr>)
    requires ValidCidr(block) && ValidRanges(reserved)
    ensures Unreserved(block, reserved) <==> Free(block, reserved)
  {
    forall r | r in reserved ensures IsOverlap(block, r) <==> Meets(block, r) { OverlapExact(block, r); }
  }

  /** Inside the CIDR, from an aligned start no candidate below the result is free, and an error
      leaves none at all. */
  lemma {:induction false} FirstFitLowest(cidr: Cidr, size: nat, reserved: set<Cidr>, ip: nat)
    requires ValidCidr(cidr) && 1 <= size <= 32 && cidr.len <= size && ip < ADDRESSES && ValidRanges(reserved)
    requires Aligned(ip, size) && ip >= Mask(cidr.addr, cidr.len)
    ensures
      var r := FirstFit(cidr, size, reserved, ip);
      && (r.Ok? ==> Candidate(cidr, size, r.value) && r.value.addr >= ip && Free(r.value, reserved))
      && (forall b: Cidr :: Candidate(cidr, size, b) && b.addr >= ip && (r.Ok? ==> b.addr < r.value.addr)
            ==> !Free(b, reserved))
    decreases ADDRESSES - ip
  {
    var r := FirstFit(cidr, size, reserved, ip);
    var here := Cidr(ip, size);
    UnreservedIsFree(here, reserved);
    if !Contains(cidr, ip) {
      forall b: Cidr | Candidate(cidr, size, b) && b.addr >= ip ensures false {
        assert Contains(b, b.addr);
        ContainsIsInterval(cidr, ip);
        ContainsIsInterval(cidr, b.addr);
      }
    } else if Unreserved(here, reserved) {
      forall x | 0 <= x < ADDRESSES && Contains(here, x) ensures Contains(cidr, x) {
        AlignedBlockInside(cidr, here, x);
      }
    } else {
      NoAlignedBetween(ip, ip, size);
      if ip + Size(size) < ADDRESSES {
        FirstFitLowest(cidr, size, reserved, ip + Size(size));
      }
      forall b: Cidr | Candidate(cidr, size, b) && b.addr >= ip && (r.Ok? ==> b.addr < r.value.addr)
        ensures !Free(b, reserved)
      {
        if b.addr < ip + Size(size) {
          NoAlignedBetween(b.addr, ip, size);
          assert b == here;
        }
      }
    }
  }

  /**
   * First fit is sound and complete: an allocated block is a candidate, is free and is the lowest such
   * block; the request is refused exactly if the CIDR is narrower than a block, its written address has
   * bits set behind the block's prefix, or every candidate meets a reserved range.
   */
  lemma AllocateExact(cidr: Cidr, size: nat, reserved: set<Cidr>)
    requires ValidCidr(cidr) && 1 <= size <= 32 && ValidRanges(reserved)
    ensures
      var r := Allocate(cidr, size, reserved);
      && (r.Ok? ==> Candidate(cidr, size, r.value) && Free(r.value, reserved))
      && (r.Ok? ==> forall b: Cidr :: Candidate(cidr, size, b) && Free(b, reserved) ==> r.value.addr <= b.addr)
      && (r.Err? <==> cidr.len > size || Mask(cidr.addr, size) != cidr.addr
                      || !exists b: Cidr :: Candidate(cidr, size, b) && Free(b, reserved))
  {
    if ParseOk(cidr, size) {
      var start := Mask(cidr.addr, cidr.len);
      MaskKeepsNetwork(cidr.addr, cidr.len);
      MaskAlignedLonger(cidr.addr, cidr.len, size);
      FirstFitLowest(cidr, size, reserved, start);
      forall b: Cidr | Candidate(cidr, size, b) ensures b.addr >= start {
        assert Contains(b, b.addr);
        ContainsIsInterval(cidr, b.addr);
      }
    }
  }

  ghost predicate PairwiseDisjoint(blocks: set<Cidr>)
    requires ValidRanges(blocks)
  {
    forall a, b | a in blocks && b in blocks && a != b :: !Meets(a, b)
  }

  class IPAllocator {
    var pendingIPRanges: set<Cidr>

    ghost predicate Valid() reads this {
      ValidRanges(pendingIPRanges)
    }

    constructor (pending: set<Cidr>)
      requires ValidRanges(pending)
      ensures Valid() && pendingIPRanges == pending
    {
      pendingIPRanges := pending;
    }

    method HoldIPRange(block: Cidr)
      requires Valid() && ValidCidr(block)
      modifies this
      ensures Valid() && pendingIPRanges == old(pendingIPRanges) + {block}
    {
      pendingIPRanges := pendingIPRanges + {block};
    }

    method ReleaseIPRange(block: Cidr)
      requires Valid()
      modifies this
      ensures Valid() && pendingIPRanges == old(pendingIPRanges) - {block}
    {
      pendingIPRanges := pendingIPRanges - {block};
    }

    method GetUnreservedIPRange(cidr: Cidr, size: nat, cloudRanges: set<Cidr>) returns (r: Result<Cidr>)
      requires Valid() && ValidCidr(cidr) && 1 <= size <= 32 && ValidRanges(cloudRanges)
      modifies this
      ensures Valid()
      ensures r == Allocate(cidr, size, cloudRanges + old(pendingIPRanges))
      ensures r.Err? <==> cidr.len > size || Mask(cidr.addr, size) != cidr.addr
                          || forall b: Cidr | Candidate(cidr, size, b) :: !Free(b, cloudRanges + old(pendingIPRanges))
      ensures r.Ok? ==> Candidate(cidr, size, r.value) && Free(r.value, cloudRanges + old(pendingIPRanges))
      ensures r.Ok? ==> forall b: Cidr | Candidate(cidr, size, b) && Free(b, cloudRanges + old(pendingIPRanges)) :: r.value.addr <= b.addr
      ensures pendingIPRanges == old(pendingIPRanges) + if r.Ok? then {r.value} else {}
    {
      var reserved := cloudRanges + pendingIPRanges;
      AllocateExact(cidr, size, reserved);
      if !ParseOk(cidr, size) {
        return Err;
      }
      Exp2Bound(32 - size);
      var step := Size(size);
      MaskKeepsNetwork(cidr.addr, cidr.len);
      var ip := Ok(Mask(cidr.addr, cidr.len));
      while ip.Ok? && Contains(cidr, ip.value)
        invariant ip.Ok? ==> ip.value < ADDRESSES
        invariant Allocate(cidr, size, reserved)
               == if ip.Ok? then FirstFit(cidr, size, reserved, ip.value) else Err
        invariant pendingIPRanges == old(pendingIPRanges)
        decreases if ip.Ok? then ADDRESSES - ip.value else -1
      {
        var block := Cidr(ip.value, size);
        var overlaps := false;
        var rest := reserved;
        while rest != {} && !overlaps
          invariant rest <= reserved
          invariant overlaps ==> !Unreserved(block, reserved)
          invariant !overlaps ==> Unreserved(block, reserved - rest)
          decreases rest
        {
          var range :| range in rest;
          overlaps := IsOverlap(block, range);
          rest := rest - {range};
        }
        if !overlaps {
          assert reserved - rest == reserved;
          HoldIPRange(block);
          return Ok(block);
        }
        ip := IncrementIp(ip.value, step);
      }
      return Err;
    }
  }

  /** A call on the allocator. Requests name their CIDR, block size and the ranges the cloud reported. */
  datatype Call =
    | Get(cidr: Cidr, size: nat, cloud: set<Cidr>)
    | Release(block: Cidr)

  predicate ValidCall(c: Call) {
    match c
    case Get(cidr, size, cloud) => ValidCidr(cidr) && 1 <= size <= 32 && ValidRanges(cloud)
    case Release(_) => true
  }

  /** The effect of a call on the pending set, as the two methods above state it. */
  function Apply(pending: set<Cidr>, c: Call): (next: set<Cidr>)
    requires ValidRanges(pending) && ValidCall(c)
    ensures ValidRanges(next)
  {
    match c
    case Get(cidr, size, cloud) =>
      var r := Allocate(cidr, size, cloud + pending);
      if r.Ok? then AllocateExact(cidr, size, cloud + pending); pending + {r.value} else pending
    case Release(block) => pending - {block}
  }

  function Run(pending: set<Cidr>, calls: seq<Call>): set<Cidr>
    requires ValidRanges(pending) && forall c | c in calls :: ValidCall(c)
    decreases |calls|
  {
    if calls == [] then pending else Run(Apply(pending, calls[0]), calls[1..])
  }

  /** A block handed out meets nothing that was pending, so it was not pending itself. */
  lemma GrantedIsNew(pending: set<Cidr>, cidr: Cidr, size: nat, cloud: set<Cidr>)
    requires ValidRanges(pending) && ValidCall(Get(cidr, size, cloud))
    requires Allocate(cidr, size, cloud + pending).Ok?
    ensures
      var block := Allocate(cidr, size, cloud + pending).value;
      ValidCidr(block) && block !in pending && forall p | p in pending :: !Meets(block, p) && !Meets(p, block)
  {
    var reserved := cloud + pending;
    AllocateExact(cidr, size, reserved);
    var block := Allocate(cidr, size, reserved).value;
    forall p | p in pending ensures !Meets(block, p) && !Meets(p, block) {
      assert p in reserved;
    }
    if block in pending {
      assert Contains(block, block.addr);
      assert Meets(block, block);
    }
  }

  /** Pending reservations stay pairwise disjoint over every sequence of calls, whatever the sizes
      asked for and whatever the cloud reports. */
  lemma {:induction false} PendingStaysDisjoint(pending: set<Cidr>, calls: seq<Call>)
    requires ValidRanges(pending) && PairwiseDisjoint(pending)
    requires forall c | c in calls :: ValidCall(c)
    ensures ValidRanges(Run(pending, calls)) && PairwiseDisjoint(Run(pending, calls))
    decreases |calls|
  {
    if calls != [] {
      var c := calls[0];
      assert c in calls && ValidCall(c);
      if c.Get? && Allocate(c.cidr, c.size, c.cloud + pending).Ok? {
        GrantedIsNew(pending, c.cidr, c.size, c.cloud);
      }
      PendingStaysDisjoint(Apply(pending, c), calls[1..]);
    }
  }

  /** Releasing what a call granted restores the pending set exactly. */
  lemma ReleaseUndoesGet(pending: set<Cidr>, cidr: Cidr, size: nat, cloud: set<Cidr>)
    requires ValidRanges(pending) && ValidCall(Get(cidr, size, cloud))
    requires Allocate(cidr, size, cloud + pending).Ok?
    ensures
      var block := Allocate(cidr, size, cloud + pending).value;
      Run(pending, [Get(cidr, size, cloud), Release(block)]) == pending
  {
    GrantedIsNew(pending, cidr, size, cloud);
    var block := Allocate(cidr, size, cloud + pending).value;
    var calls := [Get(cidr, size, cloud), Release(block)];
    assert calls[1..] == [Release(block)];
    assert Run(pending, calls) == Run(pending + {block}, [Release(block)]);
    assert Run(pending + {block}, [Release(block)]) == pending + {block} - {block};
  }
}
