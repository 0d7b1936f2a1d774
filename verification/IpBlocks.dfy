/** IPv4 prefix blocks (section 3.1 of RFC 4632) over 32-bit addresses. */
module IpBlocks {

  const ADDRESSES := 0x1_0000_0000

  /** A written block: an address, possibly with host bits set, and a prefix length. */
  datatype Cidr = Cidr(addr: nat, len: nat)

  predicate ValidCidr(c: Cidr) {
    c.addr < ADDRESSES && c.len <= 32
  }

  function Exp2(n: nat): (p: nat)
    ensures p >= 1
  {
    if n == 0 then 1 else 2 * Exp2(n - 1)
  }

  /** The number of addresses in a block with this prefix length. */
  function Size(len: nat): (s: nat)
    requires len <= 32
    ensures s >= 1
  {
    Exp2(32 - len)
  }

  function Div(x: nat, d: nat): nat
    requires d > 0
  {
    x / d
  }

  /** The network number of an address: its first `len` bits. */
  function Network(ip: nat, len: nat): nat
    requires len <= 32
  {
    Div(ip, Size(len))
  }

  /** The address with its host bits cleared. */
  function Mask(ip: nat, len: nat): nat
    requires len <= 32
  {
    Network(ip, len) * Size(len)
  }

  predicate Aligned(ip: nat, len: nat)
    requires len <= 32
  {
    Mask(ip, len) == ip
  }

  /** IPNet.Contains: the masked addresses agree. */
  predicate Contains(c: Cidr, ip: nat)
    requires ValidCidr(c)
  {
    Mask(ip, c.len) == Mask(c.addr, c.len)
  }

  /** isOverlap: one block contains the first address of the other. */
  predicate IsOverlap(a: Cidr, b: Cidr)
    requires ValidCidr(a) && ValidCidr(b)
  {
    Contains(a, Mask(b.addr, b.len)) || Contains(b, Mask(a.addr, a.len))
  }

  /** What overlap means: some address lies in both blocks. */
  ghost predicate Meets(a: Cidr, b: Cidr)
    requires ValidCidr(a) && ValidCidr(b)
  {
    exists ip :: 0 <= ip < ADDRESSES && Contains(a, ip) && Contains(b, ip)
  }

  lemma {:induction false} Exp2Bound(n: nat)
    requires n <= 32
    ensures Exp2(n) <= ADDRESSES && (n < 32 ==> 2 * Exp2(n) <= ADDRESSES)
  {
    assert Exp2(4) == 16;
    assert Exp2(8) == 256;
    assert Exp2(12) == 4096;
    assert Exp2(16) == 0x1_0000;
    assert Exp2(20) == 0x10_0000;
    assert Exp2(24) == 0x100_0000;
    assert Exp2(28) == 0x1000_0000;
    assert Exp2(32) == ADDRESSES;
    if n < 32 { Exp2Grows(n + 1, 32); }
  }

  lemma {:induction false} Exp2Grows(m: nat, n: nat)
    requires m <= n
    ensures Exp2(m) <= Exp2(n)
    decreases n
  {
    if m < n { Exp2Grows(m, n - 1); }
  }

  /** Quotient and remainder are the only pair that fits. */
  lemma QuotientUnique(x: nat, d: nat, q: nat)
    requires d > 0 && q * d <= x < q * d + d
    ensures Div(x, d) == q
  {
    var p := Div(x, d);
    assert p * d <= x < p * d + d;
    if p < q { MulMono(p + 1, q, d); }
    if q < p { MulMono(q + 1, p, d); }
  }

  lemma MulMono(a: nat, b: nat, d: nat)
    requires a <= b
    ensures a * d <= b * d
  {
    assert b * d == a * d + (b - a) * d;
  }

  /** Dropping one more bit halves the network number. */
  lemma NetworkHalves(ip: nat, len: nat)
    requires len < 32
    ensures Network(ip, len) == Network(ip, len + 1) / 2
  {
    assert Size(len) == 2 * Size(len + 1);
    HalfQuotient(ip, Size(len + 1));
  }

  lemma HalfQuotient(ip: nat, s: nat)
    requires s > 0
    ensures Div(ip, 2 * s) == Div(ip, s) / 2
  {
    var q := Div(ip, s);
    var p := q / 2;
    assert q * s <= ip < q * s + s;
    MulMono(2 * p, q, s);
    MulMono(q, 2 * p + 1, s);
    Double(p, s);
    QuotientUnique(ip, 2 * s, p);
  }

  lemma Double(p: nat, s: nat)
    ensures p * (2 * s) == (2 * p) * s
    ensures (2 * p + 1) * s == (2 * p) * s + s
  {
  }

  /** Addresses that agree on a longer prefix agree on every shorter one. */
  lemma {:induction false} ShorterPrefixAgrees(x: nat, y: nat, short: nat, long: nat)
    requires short <= long <= 32
    requires Network(x, long) == Network(y, long)
    ensures Network(x, short) == Network(y, short)
    decreases long
  {
    if short < long {
      NetworkHalves(x, long - 1);
      NetworkHalves(y, long - 1);
      ShorterPrefixAgrees(x, y, short, long - 1);
    }
  }

  lemma MaskKeepsNetwork(ip: nat, len: nat)
    requires len <= 32
    ensures Network(Mask(ip, len), len) == Network(ip, len)
    ensures Mask(ip, len) <= ip < Mask(ip, len) + Size(len)
    ensures Aligned(Mask(ip, len), len)
  {
    var d := Size(len);
    assert (ip / d) * d + ip % d == ip;
    QuotientUnique(Mask(ip, len), d, Network(ip, len));
  }

  /** Containment is agreement of network numbers. */
  lemma ContainsIsNetwork(c: Cidr, ip: nat)
    requires ValidCidr(c)
    ensures Contains(c, ip) <==> Network(ip, c.len) == Network(c.addr, c.len)
  {
    MaskKeepsNetwork(ip, c.len);
    MaskKeepsNetwork(c.addr, c.len);
  }

  /** A block is the interval of Size addresses from its masked address. */
  lemma ContainsIsInterval(c: Cidr, ip: nat)
    requires ValidCidr(c)
    ensures var base := Mask(c.addr, c.len); Contains(c, ip) <==> base <= ip < base + Size(c.len)
  {
    MaskKeepsNetwork(ip, c.len);
    var base := Mask(c.addr, c.len);
    if base <= ip < base + Size(c.len) {
      QuotientUnique(ip, Size(c.len), Network(c.addr, c.len));
    }
  }

  lemma NestedMeets(a: Cidr, b: Cidr)
    requires ValidCidr(a) && ValidCidr(b) && a.len <= b.len
    requires Meets(a, b)
    ensures Contains(a, Mask(b.addr, b.len))
  {
    var ip :| 0 <= ip < ADDRESSES && Contains(a, ip) && Contains(b, ip);
    ContainsIsNetwork(a, ip);
    ContainsIsNetwork(b, ip);
    var base := Mask(b.addr, b.len);
    MaskKeepsNetwork(b.addr, b.len);
    ShorterPrefixAgrees(base, ip, a.len, b.len);
    ContainsIsNetwork(a, base);
  }

  /** The two-sided test on first addresses is intersection, for blocks of any two sizes. */
  lemma OverlapExact(a: Cidr, b: Cidr)
    requires ValidCidr(a) && ValidCidr(b)
    ensures IsOverlap(a, b) <==> Meets(a, b)
  {
    MaskKeepsNetwork(a.addr, a.len);
    MaskKeepsNetwork(b.addr, b.len);
    if Contains(a, Mask(b.addr, b.len)) {
      ContainsIsNetwork(b, Mask(b.addr, b.len));
    }
    if Contains(b, Mask(a.addr, a.len)) {
      ContainsIsNetwork(a, Mask(a.addr, a.len));
    }
    if Meets(a, b) {
      if a.len <= b.len { NestedMeets(a, b); } else { NestedMeets(b, a); }
    }
  }

  /** An aligned block whose first address lies in a wider block lies in it entirely. */
  lemma AlignedBlockInside(wide: Cidr, block: Cidr, ip: nat)
    requires ValidCidr(wide) && ValidCidr(block) && wide.len <= block.len
    requires Contains(wide, block.addr) && Contains(block, ip)
    ensures Contains(wide, ip)
  {
    ContainsIsNetwork(wide, block.addr);
    ContainsIsNetwork(block, ip);
    ShorterPrefixAgrees(ip, block.addr, wide.len, block.len);
    ContainsIsNetwork(wide, ip);
  }

  /** Masking to a short prefix leaves an address aligned for every longer one. */
  lemma {:induction false} MaskAlignedLonger(ip: nat, short: nat, long: nat)
    requires short <= long <= 32
    ensures Aligned(Mask(ip, short), long)
    decreases long
  {
    var m := Mask(ip, short);
    if short == long {
      MaskKeepsNetwork(ip, short);
    } else {
      MaskAlignedLonger(ip, short, long - 1);
      var s := Size(long);
      assert Size(long - 1) == 2 * s;
      var q := Network(m, long - 1);
      assert m == q * (2 * s);
      Double(q, s);
      QuotientUnique(m, s, 2 * q);
    }
  }

  lemma Successor(p: nat, q: nat, s: nat)
    ensures (q + 1) * s == q * s + s
    ensures p * s < q * s + s ==> p * s <= q * s
  {
    if q < p { MulMono(q + 1, p, s); } else { MulMono(p, q, s); }
  }

  /** Between an aligned address and the next step there is no other aligned address. */
  lemma NoAlignedBetween(x: nat, y: nat, len: nat)
    requires len <= 32 && Aligned(x, len) && Aligned(y, len)
    requires x < y + Size(len)
    ensures x <= y
    ensures Aligned(y + Size(len), len)
  {
    var s := Size(len);
    var p, q := Network(x, len), Network(y, len);
    Successor(p, q, s);
    QuotientUnique(y + s, s, q + 1);
  }
}
