/** Sizes of shares and instances: request bounds, packing limits, growing and shrinking. */
module Capacity {
  import opened Wrappers

  const GB := 1024 * 1024 * 1024
  const TB := 1024 * GB
  const MIN_INSTANCE := 1 * TB
  const MAX_INSTANCE := 10 * TB
  const MAX_SHARE := 1 * TB
  const MIN_SHARE := 100 * GB
  const CONFIGURABLE_MIN_SHARE := 10 * GB
  const DEFAULT_STEP_GB := MIN_INSTANCE / GB
  const MAX_SHARES_PER_INSTANCE := 10

  function Min(a: int, b: int): int { if a < b then a else b }

  function Max(a: int, b: int): int { if a > b then a else b }

  /** Go's integer division, which truncates towards zero. */
  function Quotient(a: int, b: int): int
    requires b != 0
  {
    if a >= 0 then a / b else -((-a) / b)
  }

  function AlignBytes(curr: int, step: int): int {
    if step == 0 then curr else Quotient(curr + step - 1, step) * step
  }

  /** For a real step, the least multiple of the step that is not below the value. */
  lemma AlignIsLeastMultiple(x: int, step: int)
    requires x >= 0 && step > 0
    ensures var a := AlignBytes(x, step);
            && x <= a < x + step && a % step == 0
            && forall m {:trigger m % step} :: m % step == 0 && m >= x ==> a <= m
  {
    var a := AlignBytes(x, step);
    var q := (x + step - 1) / step;
    DivBounds(x + step - 1, step);
    MultipleMod(q, step);
    forall m | m % step == 0 && m >= x ensures a <= m {
      DivBounds(m, step);
      if m / step < q { StepUp(m / step, q, step); }
    }
  }

  lemma DivBounds(x: int, d: int)
    requires d > 0
    ensures (x / d) * d <= x < (x / d) * d + d
    ensures x % d == 0 ==> (x / d) * d == x
  {
  }

  lemma MultipleMod(q: int, d: int)
    requires d > 0
    ensures (q * d) % d == 0
  {
    var r := (q * d) % d;
    var p := (q * d) / d;
    assert q * d == p * d + r;
    assert (q - p) * d == r;
    if q - p >= 1 { StepUp(0, q - p, d); }
    if q - p <= -1 { StepUp(q - p, 0, d); }
  }

  lemma StepUp(a: int, b: int, d: int)
    requires a < b && d > 0
    ensures a * d + d <= b * d
  {
    assert b * d == (a + 1) * d + (b - a - 1) * d;
    assert (b - a - 1) * d >= 0;
  }

  // Share requests.

  datatype Range = Unbounded | Range(required: int, limit: int)

  /** The size a request asks for, inside the bounds given. */
  function ShareRequestCapacity(range: Range, min: int, max: int): (r: Result<int>)
    requires 0 < min <= max
    ensures r.Ok? ==> min <= r.value <= max
    ensures r.Ok? && range.Range? && range.required > 0 ==> r.value >= range.required
    ensures r.Ok? && range.Range? && range.limit > 0 ==> r.value <= range.limit
  {
    match range
    case Unbounded => Ok(min)
    case Range(required, limit) =>
      if limit <= 0 && required <= 0 then Err
      else if limit > 0 && required > 0 && limit < required then Err
      else if limit > 0 && (limit < min || limit > max) then Err
      else if required > 0 && (required < min || required > max) then Err
      else if limit > 0 then Ok(limit)
      else Ok(required)
  }

  /**
   * The request is for this size: it says nothing, and gets the smallest; or it says something, all of it
   * within the bounds and no requirement above its own limit, and gets its limit, or else what it requires.
   */
  predicate AsksFor(range: Range, min: int, max: int, size: int) {
    match range
    case Unbounded => size == min
    case Range(required, limit) =>
      && (required > 0 ==> min <= required <= max) && (limit > 0 ==> min <= limit <= max && required <= limit)
      && (required > 0 || limit > 0) && size == if limit > 0 then limit else required
  }

  /** A request is accepted exactly if it is for some size, and then with that size. */
  lemma RequestExact(range: Range, min: int, max: int)
    requires 0 < min <= max
    ensures forall c :: ShareRequestCapacity(range, min, max) == Ok(c) <==> AsksFor(range, min, max, c)
  {
  }

  // Packing: how many shares of which size an instance may hold.

  /** The max-volume-size parameter of a StorageClass. */
  datatype VolumeSize = Absent | Size(bytes: int) | Malformed

  predicate IsValidMaxVolSize(bytes: int) {
    bytes == 128 * GB || bytes == 256 * GB || bytes == 512 * GB || bytes == TB
  }

  function SharesPerInstance(bytes: int): Result<int> {
    if !IsValidMaxVolSize(bytes) then Err else Ok(MAX_INSTANCE / bytes)
  }

  /** The share count and share size limits of a StorageClass. */
  function ParseMaxVolumeSize(feature: bool, p: VolumeSize): Result<(int, int)> {
    if !feature && !p.Absent? then Err
    else if p.Absent? then Ok((MAX_SHARES_PER_INSTANCE, MAX_SHARE))
    else if p.Malformed? then Err
    else
      var count := SharesPerInstance(p.bytes);
      if count.Err? then Err else Ok((count.value, p.bytes))
  }

  predicate IsSizeParameter(p: VolumeSize) {
    p in {Size(128 * GB), Size(256 * GB), Size(512 * GB), Size(TB)}
  }

  /** Accepted are no parameter, and with the feature one of four sizes; count and size make up the largest instance. */
  lemma LimitsExact(feature: bool, p: VolumeSize)
    ensures var r := ParseMaxVolumeSize(feature, p);
            && (r.Ok? <==> p == Absent || (feature && IsSizeParameter(p)))
            && (r.Ok? ==> r.value.1 == (if p.Size? then p.bytes else TB) && r.value.0 * r.value.1 == 10 * TB)
  {
  }

  /** The reconciler's reading of the same parameter: anything unusable means the default count. */
  function MaxSharePerInstance(feature: bool, p: VolumeSize): int {
    var r := ParseMaxVolumeSize(feature, p);
    if r.Err? || r.value.0 == 0 then MAX_SHARES_PER_INSTANCE else r.value.0
  }

  /** The size limit that goes with that count. */
  function MaxSharePerVolume(feature: bool, p: VolumeSize): int {
    var r := ParseMaxVolumeSize(feature, p);
    if r.Err? then MAX_SHARE else r.value.1
  }

  /** For every parameter, count and size multiply to exactly the largest instance. */
  lemma CountTimesSizeIsMax(feature: bool, p: VolumeSize)
    ensures MaxSharePerInstance(feature, p) * MaxSharePerVolume(feature, p) == MAX_INSTANCE
    ensures MaxSharePerInstance(feature, p) >= 10
    ensures CONFIGURABLE_MIN_SHARE <= MaxSharePerVolume(feature, p)
  {
  }

  function Sum(caps: seq<int>): int {
    if caps == [] then 0 else caps[0] + Sum(caps[1..])
  }

  lemma {:induction false} SumAppend(a: seq<int>, b: seq<int>)
    ensures Sum(a + b) == Sum(a) + Sum(b)
  {
    if a == [] {
      assert a + b == b;
    } else {
      assert (a + b)[1..] == a[1..] + b;
      SumAppend(a[1..], b);
    }
  }

  lemma OneMore(n: int, c: int)
    ensures (n + 1) * c == n * c + c
  {
  }

  lemma {:induction false} SumBound(caps: seq<int>, limit: int)
    requires limit >= 0 && forall c | c in caps :: 0 <= c <= limit
    ensures 0 <= Sum(caps) <= |caps| * limit
  {
    if caps != [] {
      assert caps[0] in caps && forall c | c in caps[1..] :: c in caps;
      SumBound(caps[1..], limit);
      OneMore(|caps[1..]|, limit);
    }
  }

  lemma Scale(a: int, b: int, c: int)
    requires a <= b && 0 <= c
    ensures a * c <= b * c
  {
    assert (b - a) * c >= 0;
  }

  /** What fits `count` times is at most that fraction of the largest instance. */
  lemma FitsTimes(c: int, count: int)
    requires count > 0 && c * count <= MAX_INSTANCE
    ensures c <= MAX_INSTANCE / count
  {
    DivBounds(MAX_INSTANCE, count);
    if c > MAX_INSTANCE / count { StepUp(MAX_INSTANCE / count, c, count); }
  }

  /** At most `count` shares of at most that size fit the largest instance. */
  lemma SumFits(caps: seq<int>, count: int)
    requires count > 0 && |caps| <= count && forall c | c in caps :: 0 <= c <= MAX_INSTANCE / count
    ensures 0 <= Sum(caps) <= MAX_INSTANCE
  {
    SumBound(caps, MAX_INSTANCE / count);
    Scale(|caps|, count, MAX_INSTANCE / count);
    DivBounds(MAX_INSTANCE, count);
  }

  function Repeat(c: int, n: nat): (r: seq<int>)
    ensures |r| == n && forall k | 0 <= k < n :: r[k] == c
  {
    seq(n, _ => c)
  }

  lemma {:induction false} SumRepeat(c: int, n: nat)
    ensures Sum(Repeat(c, n)) == n * c
  {
    if n > 0 {
      assert Repeat(c, n)[1..] == Repeat(c, n - 1);
      SumRepeat(c, n - 1);
      OneMore(n - 1, c);
    }
  }

  /** Sizes of shares of these StorageClasses, one by one within the limit of its own. */
  ghost predicate WithinLimits(caps: seq<int>, of: seq<VolumeSize>, classes: set<VolumeSize>, feature: bool) {
    && |caps| == |of|
    && forall k | 0 <= k < |of| :: of[k] in classes && 0 <= caps[k] <= MaxSharePerVolume(feature, of[k])
  }

  /**
   * An instance takes as many shares as its own parameter allows, whatever StorageClass of its pool they
   * are of. That keeps their sum within the largest instance, whichever shares come, exactly when no
   * StorageClass of the pool allows larger shares than the instance's own.
   */
  lemma CountLimitSafeIff(feature: bool, p: VolumeSize, classes: set<VolumeSize>)
    ensures (forall caps, of :: WithinLimits(caps, of, classes, feature) && |caps| <= MaxSharePerInstance(feature, p) ==> Sum(caps) <= MAX_INSTANCE)
       <==> (forall q | q in classes :: MaxSharePerVolume(feature, q) <= MaxSharePerVolume(feature, p))
  {
    var count := MaxSharePerInstance(feature, p);
    CountTimesSizeIsMax(feature, p);
    if q :| q in classes && MaxSharePerVolume(feature, q) > MaxSharePerVolume(feature, p) {
      var caps, of := Repeat(MaxSharePerVolume(feature, q), count), seq(count, _ => q);
      CountTimesSizeIsMax(feature, q);
      assert WithinLimits(caps, of, classes, feature);
      SumRepeat(MaxSharePerVolume(feature, q), count);
      StepUp(MaxSharePerVolume(feature, p), MaxSharePerVolume(feature, q), count);
    } else {
      forall caps, of | WithinLimits(caps, of, classes, feature) && |caps| <= count ensures Sum(caps) <= MAX_INSTANCE {
        forall c | c in caps ensures 0 <= c <= MaxSharePerVolume(feature, p) {
          var k :| 0 <= k < |caps| && caps[k] == c;
          assert of[k] in classes;
        }
        PackedSharesFit(feature, p, caps);
      }
    }
  }

  /** Shares that respect their StorageClass's count and size limits fit the largest instance. */
  lemma PackedSharesFit(feature: bool, p: VolumeSize, caps: seq<int>)
    requires |caps| <= MaxSharePerInstance(feature, p)
    requires forall c | c in caps :: 0 <= c <= MaxSharePerVolume(feature, p)
    ensures 0 <= Sum(caps) <= MAX_INSTANCE
  {
    var count, size := MaxSharePerInstance(feature, p), MaxSharePerVolume(feature, p);
    CountTimesSizeIsMax(feature, p);
    SumBound(caps, size);
    assert |caps| * size <= count * size by { assert (count - |caps|) * size >= 0; }
  }

  // The reconciler's instance size.

  /** instanceInfoNewCapacity: the sum aligned to the step, then clamped. */
  function NewCapacity(total: int, stepGb: int): int {
    var step := if stepGb == 0 then DEFAULT_STEP_GB else stepGb;
    Min(Max(AlignBytes(total, step * GB), MIN_INSTANCE), MAX_INSTANCE)
  }

  /** The clamp cuts nothing that fits: every total up to the largest instance is covered. */
  lemma ClampCovers(total: int, stepGb: int)
    requires total >= 0 && stepGb >= 0
    ensures MIN_INSTANCE <= NewCapacity(total, stepGb) <= MAX_INSTANCE
    ensures NewCapacity(total, stepGb) >= Min(total, MAX_INSTANCE)
  {
    var step := if stepGb == 0 then DEFAULT_STEP_GB else stepGb;
    AlignIsLeastMultiple(total, step * GB);
  }

  /** The least multiple of the step that is not below the total. */
  ghost predicate IsLeastMultiple(a: int, total: int, step: int)
    requires step > 0
  {
    a % step == 0 && a >= total && forall m {:trigger m % step} | m % step == 0 && m >= total :: a <= m
  }

  /** The least multiple of the step, 1 TiB if none is known, that holds the total; no less than 1 TiB, no more than 10 TiB. */
  ghost predicate IsLeastFor(capacity: int, total: int, stepGb: nat) {
    var step := if stepGb == 0 then TB else stepGb * GB;
    exists a :: IsLeastMultiple(a, total, step) && capacity == if a < TB then TB else if a > 10 * TB then 10 * TB else a
  }

  /** An instance is to have the least multiple of its step that holds the total, or the nearest size allowed. */
  lemma NewCapacityIsLeast(total: int, stepGb: nat)
    ensures IsLeastFor(NewCapacity(total, stepGb), total, stepGb)
  {
    var step := if stepGb == 0 then TB else stepGb * GB;
    var a := CeilMultiple(total, step);
    if total >= 0 {
      AlignIsLeastMultiple(total, step);
      assert AlignBytes(total, step) % step == 0;
    } else {
      AlignOfNegative(total, step);
      assert 0 % step == 0;
    }
  }

  lemma CeilMultiple(total: int, step: int) returns (a: int)
    requires step > 0
    ensures IsLeastMultiple(a, total, step)
  {
    var q := (total + step - 1) / step;
    a := q * step;
    DivBounds(total + step - 1, step);
    MultipleMod(q, step);
    forall m {:trigger m % step} | m % step == 0 && m >= total ensures a <= m {
      DivBounds(m, step);
      if m / step < q { StepUp(m / step, q, step); }
    }
  }

  lemma AlignOfNegative(total: int, step: int)
    requires step > 0 && total < 0
    ensures AlignBytes(total, step) <= 0
  {
    var x := total + step - 1;
    var q := Quotient(x, step);
    if x >= 0 {
      DivBounds(x, step);
      if q >= 1 { StepUp(0, q, step); }
    } else {
      DivBounds(-x, step);
      if q >= 1 { StepUp(-q, 0, step); }
    }
    Scale(q, 0, step);
  }

  // The ops manager's growing and shrinking.

  /** Does the instance have to grow to take `need` more bytes, and to what size? */
  function NeedsExpand(capacity: int, used: int, need: int, stepGb: int): Option<int> {
    if capacity - used < need then Some(Min(AlignBytes(need + used, stepGb * GB), MAX_INSTANCE)) else None
  }

  /** The size to shrink to, if the instance is to be shrunk. */
  function ShrinkTarget(capacity: int, used: int, stepGb: int): Option<int> {
    if used < capacity && capacity > MIN_INSTANCE then
      var target := Max(AlignBytes(used, stepGb * GB), MIN_INSTANCE);
      if capacity == target then None else Some(target)
    else None
  }

  /** A step size that divides the smallest instance. */
  predicate StepOk(stepGb: int) {
    stepGb > 0 && 1024 % stepGb == 0
  }

  /** A capacity an instance can have. */
  predicate CapacityOk(capacity: int, stepGb: int)
    requires stepGb > 0
  {
    MIN_INSTANCE <= capacity <= MAX_INSTANCE && capacity % (stepGb * GB) == 0
  }

  lemma BoundsAligned(stepGb: int)
    requires StepOk(stepGb)
    ensures CapacityOk(MIN_INSTANCE, stepGb) && CapacityOk(MAX_INSTANCE, stepGb)
  {
    var k := 1024 / stepGb;
    assert k * stepGb == 1024;
    assert MIN_INSTANCE == k * (stepGb * GB) by { Regroup(k, stepGb, GB); }
    assert MAX_INSTANCE == (10 * k) * (stepGb * GB) by { Regroup(10 * k, stepGb, GB); assert 10 * k * stepGb == 10240; }
    MultipleMod(k, stepGb * GB);
    MultipleMod(10 * k, stepGb * GB);
  }

  lemma Regroup(a: int, b: int, c: int)
    ensures (a * b) * c == a * (b * c)
  {
  }

  /** A grow that fits covers the need, exceeds the old size and overshoots by less than a step;
      in every case the target is a legal size. */
  lemma GrowExact(capacity: int, used: int, need: int, stepGb: int)
    requires StepOk(stepGb) && CapacityOk(capacity, stepGb) && 0 <= used && 0 <= need
    requires NeedsExpand(capacity, used, need, stepGb).Some?
    ensures var t := NeedsExpand(capacity, used, need, stepGb).value;
            && CapacityOk(t, stepGb) && t >= capacity
            && (used + need <= MAX_INSTANCE <==> t >= used + need)
            && (used + need <= MAX_INSTANCE ==> t > capacity && t < used + need + stepGb * GB)
  {
    BoundsAligned(stepGb);
    AlignIsLeastMultiple(need + used, stepGb * GB);
  }

  /** A shrink stays at or above what the shares use and never grows the instance; checking again
      afterwards finds nothing to do. */
  lemma ShrinkExact(capacity: int, used: int, stepGb: int)
    requires StepOk(stepGb) && CapacityOk(capacity, stepGb) && 0 <= used
    requires ShrinkTarget(capacity, used, stepGb).Some?
    ensures var t := ShrinkTarget(capacity, used, stepGb).value;
            && CapacityOk(t, stepGb) && used <= t < capacity
            && ShrinkTarget(t, used, stepGb) == None
  {
    BoundsAligned(stepGb);
    AlignIsLeastMultiple(used, stepGb * GB);
  }

  /**
   * An instance is shrunk exactly if a smaller size is legal and holds what is in use, and to the least such
   * size; it is grown exactly if what is needed does not fit, and to the least legal size that holds it, if any does.
   */
  lemma TargetsExact(capacity: int, used: int, need: int, stepGb: int)
    requires StepOk(stepGb) && CapacityOk(capacity, stepGb) && 0 <= used && 0 <= need
    ensures var t := ShrinkTarget(capacity, used, stepGb);
            && (t.Some? <==> exists c :: CapacityOk(c, stepGb) && used <= c < capacity)
            && (t.Some? ==> IsLeastSize(t.value, used, stepGb))
    ensures var t := NeedsExpand(capacity, used, need, stepGb);
            && (t.Some? <==> used + need > capacity)
            && (t.Some? ==> if used + need <= 10 * TB then IsLeastSize(t.value, used + need, stepGb) else t.value == 10 * TB)
  {
    BoundsAligned(stepGb);
    AlignIsLeastMultiple(used, stepGb * GB);
    AlignIsLeastMultiple(used + need, stepGb * GB);
    if ShrinkTarget(capacity, used, stepGb).Some? {
      ShrinkExact(capacity, used, stepGb);
      assert CapacityOk(ShrinkTarget(capacity, used, stepGb).value, stepGb);
    }
    if c :| CapacityOk(c, stepGb) && used <= c < capacity {
      assert c % (stepGb * GB) == 0;
    }
    if used + need > capacity { GrowExact(capacity, used, need, stepGb); }
  }

  /** A legal size that holds so much, and the least. */
  ghost predicate IsLeastSize(t: int, used: int, stepGb: int)
    requires stepGb > 0
  {
    CapacityOk(t, stepGb) && used <= t && forall c | CapacityOk(c, stepGb) && used <= c :: t <= c
  }

  /** A shrink target covers what is in use and is no larger than the largest instance. */
  lemma ShrinkFits(capacity: int, used: int, stepGb: nat)
    requires (stepGb == 0 || StepOk(stepGb)) && 0 <= used && capacity <= MAX_INSTANCE
    ensures var t := ShrinkTarget(capacity, used, stepGb); t.Some? ==> used <= t.value <= MAX_INSTANCE
  {
    if stepGb > 0 {
      BoundsAligned(stepGb);
      AlignIsLeastMultiple(used, stepGb * GB);
    }
  }

  /** A grow target covers a need that fits the largest instance. */
  lemma GrowFits(capacity: int, used: int, need: int, stepGb: nat)
    requires 0 <= used && 0 <= need
    ensures var t := NeedsExpand(capacity, used, need, stepGb);
            t.Some? ==> Min(used + need, MAX_INSTANCE) <= t.value <= MAX_INSTANCE
  {
    if stepGb > 0 {
      AlignIsLeastMultiple(need + used, stepGb * GB);
    }
  }

  /** A resize decision: grow for a need, or shrink, with the bytes in use at that time. */
  datatype Resize = Grow(used: nat, need: nat) | Shrink(used: nat)

  function AfterResize(capacity: int, r: Resize, stepGb: int): int {
    var t := match r
      case Grow(used, need) => NeedsExpand(capacity, used, need, stepGb)
      case Shrink(used) => ShrinkTarget(capacity, used, stepGb);
    if t.Some? then t.value else capacity
  }

  function AfterResizes(capacity: int, rs: seq<Resize>, stepGb: int): int
    decreases |rs|
  {
    if rs == [] then capacity else AfterResizes(AfterResize(capacity, rs[0], stepGb), rs[1..], stepGb)
  }

  /** Through any sequence of grows and shrinks the size stays legal. */
  lemma {:induction false} SizesStayLegal(capacity: int, rs: seq<Resize>, stepGb: int)
    requires StepOk(stepGb) && CapacityOk(capacity, stepGb)
    ensures CapacityOk(AfterResizes(capacity, rs, stepGb), stepGb)
    decreases |rs|
  {
    if rs != [] {
      match rs[0]
      case Grow(used, need) =>
        if NeedsExpand(capacity, used, need, stepGb).Some? { GrowExact(capacity, used, need, stepGb); }
        SizesStayLegal(AfterResize(capacity, rs[0], stepGb), rs[1..], stepGb);
      case Shrink(used) =>
        if ShrinkTarget(capacity, used, stepGb).Some? { ShrinkExact(capacity, used, stepGb); }
        SizesStayLegal(AfterResize(capacity, rs[0], stepGb), rs[1..], stepGb);
    }
  }
}
