/** IPv4 networks in prefix notation. */
module Cidrs {

  /** `base` is the 32-bit network address; membership is as in section 3.1 of RFC 4632. */
  datatype Cidr = Cidr(base: nat, prefixLength: nat)

  function Pow2(n: nat): nat
    ensures Pow2(n) > 0
  {
    if n == 0 then 1 else 2 * Pow2(n - 1)
  }

  /** The address agrees with the network in the leading bits that the prefix length counts. */
  predicate Contains(c: Cidr, ip: nat) {
    c.prefixLength <= 32 && ip / Pow2(32 - c.prefixLength) == c.base / Pow2(32 - c.prefixLength)
  }

  /** A network whose base has no bits beyond the prefix covers the block of addresses that starts there. */
  lemma ContainsIsBlock(c: Cidr, ip: nat)
    requires c.prefixLength <= 32 && c.base % Pow2(32 - c.prefixLength) == 0
    ensures Contains(c, ip) <==> c.base <= ip < c.base + Pow2(32 - c.prefixLength)
  {
    BlockQuotient(c.base, ip, Pow2(32 - c.prefixLength));
  }

  lemma BlockQuotient(base: nat, ip: nat, size: nat)
    requires size > 0 && base % size == 0
    ensures ip / size == base / size <==> base <= ip < base + size
  {
    var q, r := ip / size, ip % size;
    var b := base / size;
    assert ip == q * size + r && base == b * size;
    if q < b {
      BlockBelow(q, b, size);
    } else if q > b {
      BlockBelow(b, q, size);
    }
  }

  lemma {:induction false} BlockBelow(q: int, b: int, size: int)
    requires q < b && size > 0
    ensures q * size + size <= b * size
    decreases b - q
  {
    assert b * size == (b - 1) * size + size;
    if q < b - 1 {
      BlockBelow(q, b - 1, size);
    }
  }

  /** The shortest prefix covers every address, the longest one address. */
  lemma ExtremePrefixes(base: nat, ip: nat)
    requires ip < Pow2(32) && base < Pow2(32)
    ensures Contains(Cidr(base, 0), ip)
    ensures Contains(Cidr(base, 32), ip) <==> ip == base
    ensures Pow2(32) == 0x1_0000_0000
  {
    SmallQuotient(ip, Pow2(32));
    SmallQuotient(base, Pow2(32));
    PowersOfTwo();
  }

  lemma SmallQuotient(x: nat, n: nat)
    requires x < n
    ensures x / n == 0
  {
  }

  lemma PowersOfTwo()
    ensures Pow2(8) == 0x100 && Pow2(16) == 0x1_0000 && Pow2(32) == 0x1_0000_0000
  {
    assert Pow2(4) == 16;
    assert Pow2(8) == 256;
    assert Pow2(12) == 4096;
    assert Pow2(16) == 65536;
    assert Pow2(20) == 1048576;
    assert Pow2(24) == 16777216;
    assert Pow2(28) == 268435456;
    assert Pow2(32) == 4294967296;
  }
}
