/** Route entries as they travel and as they are stored: byte order, address and
    mask checks, and the arithmetic of prefix lengths. The host is
    little-endian, so `ntohl` and `htonl` both reverse the bytes.
 */
module Wire {
  import opened Options

  type U16 = x: int | 0 <= x < 0x1_0000
  type U32 = x: int | 0 <= x < 0x1_0000_0000

  const ALL_ONES: U32 := 0xFFFF_FFFF
  const INFINITY_METRIC: U32 := 16

  /** One route entry, in network byte order. */
  datatype Entry = Entry(family: U16, tag: U16, ip: U32, mask: U32, nextHop: U32, metric: U32)

  // --------------------------------------------------------------- byte order

  function Swap16(x: U16): U16 {
    x % 0x100 * 0x100 + x / 0x100
  }

  /** Reverse the four bytes, shifting them out of one end and into the other. */
  function Swap32(x: U32): U32 {
    var q1 := x / 0x100;
    var q2 := q1 / 0x100;
    ((x % 0x100 * 0x100 + q1 % 0x100) * 0x100 + q2 % 0x100) * 0x100 + q2 / 0x100
  }

  lemma SwapBytes(a: nat, b: nat, c: nat, d: nat)
    requires a < 0x100 && b < 0x100 && c < 0x100 && d < 0x100
    ensures Swap32(((a * 0x100 + b) * 0x100 + c) * 0x100 + d) == ((d * 0x100 + c) * 0x100 + b) * 0x100 + a
  {
    var x := ((a * 0x100 + b) * 0x100 + c) * 0x100 + d;
    assert x / 0x100 == (a * 0x100 + b) * 0x100 + c && x % 0x100 == d;
    assert x / 0x100 / 0x100 == a * 0x100 + b && x / 0x100 % 0x100 == c;
  }

  lemma SwapTwoBytes(a: nat, b: nat)
    requires a < 0x100 && b < 0x100
    ensures Swap16(a * 0x100 + b) == b * 0x100 + a
  {
    var x := a * 0x100 + b;
    assert x / 0x100 == a && x % 0x100 == b;
  }

  lemma Swap16Twice(x: U16)
    ensures Swap16(Swap16(x)) == x
  {
    var a, b := x / 0x100, x % 0x100;
    assert (b * 0x100 + a) / 0x100 == b && (b * 0x100 + a) % 0x100 == a;
  }

  lemma Swap32Twice(y: U32)
    ensures Swap32(Swap32(y)) == y
  {
    var q1 := y / 0x100;
    var q2 := q1 / 0x100;
    var a, b, c, d := y % 0x100, q1 % 0x100, q2 % 0x100, q2 / 0x100;
    SwapBytes(a, b, c, d);
    assert y == q1 * 0x100 + a && q1 == q2 * 0x100 + b && q2 == d * 0x100 + c;
  }

  /** Fields other than the addresses are converted. */
  function EntryNtoh(e: Entry): Entry {
    e.(family := Swap16(e.family), tag := Swap16(e.tag), metric := Swap32(e.metric))
  }

  function EntryHton(e: Entry): Entry {
    EntryNtoh(e)
  }

  lemma EntryRoundTrip(e: Entry)
    ensures EntryHton(EntryNtoh(e)) == e
    ensures EntryNtoh(e) == Entry(Swap16(e.family), Swap16(e.tag), e.ip, e.mask, e.nextHop, Swap32(e.metric))
  {
    Swap16Twice(e.family);
    Swap16Twice(e.tag);
    Swap32Twice(e.metric);
  }

  /** A metric between 1 and 16 in network order: its low byte is zero and it
      compares like the metric in host order. */
  lemma SmallMetric(m: U32)
    requires m < 0x100
    ensures Swap32(m) == m * 0x100_0000 && Swap32(m) % 0x100 == 0
    ensures Swap32(Swap32(m)) == m
  {
    SwapBytes(0, 0, 0, m);
    Swap32Twice(m);
  }

  // -------------------------------------------------------------- entry checks

  predicate IsMetricValid(metric: U32) {
    1 <= metric <= INFINITY_METRIC
  }

  /** `metric = MIN(metric + 1, 16)`. */
  function UpdateMetric(metric: U32): (r: U32)
    requires IsMetricValid(metric)
    ensures 2 <= r <= INFINITY_METRIC && metric <= r
  {
    if metric + 1 < INFINITY_METRIC then metric + 1 else INFINITY_METRIC
  }

  predicate IsUnicastAddress(ip: U32) {
    var msb := Swap32(ip) / 0x100_0000;
    msb != 0 && msb != 127 && msb < 224
  }

  function Ctz(x: nat): nat
    requires x > 0
  {
    if x % 2 == 1 then 0 else 1 + Ctz(x / 2)
  }

  function BitLength(x: nat): nat {
    if x == 0 then 0 else 1 + BitLength(x / 2)
  }

  /** Leading zeros of a 32-bit value. The compiler builtin is undefined at 0;
      no learned route gets there, see `ValidMasks`. */
  function Clz(x: U32): int {
    32 - BitLength(x)
  }

  /** On a mask in host order. */
  predicate IsContiguous(host: U32) {
    host != 0 && host != ALL_ONES && Clz(ALL_ONES - host) + Ctz(host) == 32
  }

  predicate IsNetMaskValid(mask: U32) {
    IsContiguous(Swap32(mask))
  }

  function LeadingOnes(host: U32): int {
    Clz(ALL_ONES - host)
  }

  function GetPrefixLen(mask: U32): int {
    LeadingOnes(Swap32(mask))
  }

  /** On an entry in host order. */
  predicate IsEntryValid(e: Entry) {
    IsUnicastAddress(e.ip) && IsNetMaskValid(e.mask) && IsMetricValid(e.metric)
  }

  // ------------------------------------------------------------- prefix lengths

  function Pow2(k: nat): (r: nat)
    ensures r > 0
  {
    if k == 0 then 1 else 2 * Pow2(k - 1)
  }

  /** The mask of a prefix length, or nothing for a length above 32. Shifting by
      32 places is undefined, so a length of 0 is not accepted. */
  function PrefixLenToSubnet(p: nat): (mask: Option<U32>)
    requires p > 0
    ensures mask == None <==> p > 32
  {
    if p > 32 then None else Some(Swap32(HostMask(p)))
  }

  function HostMask(p: nat): (host: U32)
    requires 1 <= p <= 32
  {
    Pow2Monotone(32 - p, 31);
    Pow2Of31();
    0x1_0000_0000 - Pow2(32 - p)
  }

  /** An address in host order with the bits beyond the prefix cleared. */
  function NetworkPart(address: U32, p: nat): (r: U32)
    requires 1 <= p <= 32
    ensures r % Pow2(32 - p) == 0 && 0 <= address - r < Pow2(32 - p)
  {
    WholeMultiple(address, Pow2(32 - p));
    address - address % Pow2(32 - p)
  }

  lemma WholeMultiple(a: nat, m: nat)
    requires m > 0
    ensures 0 <= a % m <= a && a % m < m && (a - a % m) % m == 0
  {
    var q := a / m;
    assert a - a % m == q * m;
    MultipleOf(q, m);
  }

  lemma {:induction false} MultipleOf(q: nat, m: nat)
    requires m > 0
    ensures q * m % m == 0
    decreases q
  {
    if q > 0 {
      MultipleOf(q - 1, m);
      var x := (q - 1) * m;
      assert q * m == x + m;
      AddOnce(x, m);
    }
  }

  lemma AddOnce(x: nat, m: nat)
    requires m > 0
    ensures (x + m) % m == x % m
  {
    var q, d := x / m, (x + m) / m;
    assert x == q * m + x % m && x + m == d * m + (x + m) % m;
    assert (d - 1 - q) * m == x % m - (x + m) % m;
    if d - 1 > q {
      MulAtLeast(m, d - 1 - q);
    } else if d - 1 < q {
      MulAtLeast(m, q - (d - 1));
    }
  }

  lemma Pow2Of31()
    ensures Pow2(31) == 0x8000_0000 && Pow2(32) == 0x1_0000_0000
  {
    assert Pow2(8) == 256;
    Pow2Sum(8, 8);
    Pow2Sum(16, 15);
    Pow2Sum(16, 16);
    assert Pow2(7) == 128;
    Pow2Sum(8, 7);
  }

  lemma {:induction false} Pow2Sum(a: nat, b: nat)
    ensures Pow2(a + b) == Pow2(a) * Pow2(b)
    decreases a
  {
    if a > 0 {
      Pow2Sum(a - 1, b);
      assert Pow2(a + b) == 2 * Pow2(a - 1 + b);
      TwiceProduct(Pow2(a - 1), Pow2(b));
    }
  }

  lemma {:induction false} Pow2Monotone(a: nat, b: nat)
    requires a <= b
    ensures Pow2(a) <= Pow2(b)
    decreases b - a
  {
    if a < b {
      Pow2Monotone(a + 1, b);
    }
  }

  lemma TwiceProduct(a: nat, b: nat)
    ensures 2 * (a * b) == (2 * a) * b
  {
  }

  lemma {:induction false} CtzFactor(x: nat) returns (q: nat)
    requires x > 0
    ensures q % 2 == 1 && x == Pow2(Ctz(x)) * q
    decreases x
  {
    if x % 2 == 1 {
      q := x;
    } else {
      q := CtzFactor(x / 2);
      TwiceProduct(Pow2(Ctz(x / 2)), q);
      assert x == 2 * (x / 2);
    }
  }

  lemma {:induction false} CtzOfFactor(k: nat, q: nat, x: nat)
    requires q % 2 == 1 && x == Pow2(k) * q && x > 0
    ensures Ctz(x) == k
    decreases k
  {
    if k > 0 {
      var y := Pow2(k - 1) * q;
      TwiceProduct(Pow2(k - 1), q);
      CtzOfFactor(k - 1, q, y);
    }
  }

  lemma {:induction false} BitLengthBound(x: nat)
    ensures x < Pow2(BitLength(x))
    ensures x > 0 ==> Pow2(BitLength(x) - 1) <= x
    decreases x
  {
    if x > 0 {
      BitLengthBound(x / 2);
    }
  }

  lemma {:induction false} BitLengthOfOnes(k: nat)
    ensures BitLength(Pow2(k) - 1) == k
    decreases k
  {
    if k > 0 {
      BitLengthOfOnes(k - 1);
      assert (Pow2(k) - 1) / 2 == Pow2(k - 1) - 1;
    }
  }

  /** In host order: the contiguous masks are those of prefix lengths 1 to 31. */
  lemma ContiguousIsHostMask(host: U32)
    requires IsContiguous(host)
    ensures 1 <= LeadingOnes(host) <= 31 && HostMask(LeadingOnes(host)) == host
  {
    var t := Ctz(host);
    var q := CtzFactor(host);
    BitLengthBound(ALL_ONES - host);
    Pow2Of31();
    if t >= 32 {
      Pow2Monotone(32, t);
      MulAtLeast(Pow2(t), q);
      assert false;
    }
    Pow2Sum(t, 32 - t);
    TopMultiple(Pow2(t), q, Pow2(32 - t));
  }

  lemma HostMaskIsContiguous(p: nat)
    requires 1 <= p <= 31
    ensures IsContiguous(HostMask(p)) && LeadingOnes(HostMask(p)) == p
  {
    hide Pow2, Ctz, BitLength;
    Pow2Of31();
    Pow2Monotone(32 - p, 31);
    HostMaskFactor(p);
    CtzOfFactor(32 - p, Pow2(p) - 1, HostMask(p));
    BitLengthOfOnes(32 - p);
  }

  lemma HostMaskFactor(p: nat)
    requires 1 <= p <= 31
    ensures HostMask(p) == Pow2(32 - p) * (Pow2(p) - 1) && (Pow2(p) - 1) % 2 == 1
    ensures Pow2(32 - p) >= 2
  {
    hide Pow2;
    Pow2Of31();
    Pow2Sum(32 - p, p);
    assert 32 - p + p == 32;
    LessOnce(Pow2(32 - p), Pow2(p));
    Pow2Even(p);
    Pow2Even(32 - p);
  }

  lemma Pow2Even(k: nat)
    requires k > 0
    ensures Pow2(k) >= 2 && Pow2(k) % 2 == 0
  {
  }

  lemma LessOnce(a: nat, b: nat)
    ensures a * (b - 1) == a * b - a
  {
  }

  lemma MulAtLeast(a: nat, q: nat)
    requires q > 0
    ensures a * q >= a
  {
  }

  lemma MulMonotone(a: nat, x: nat, y: nat)
    requires x <= y
    ensures a * x <= a * y
  {
  }

  /** The one multiple of `a` in the last `a` values below `a * b` is `a * b - a`. */
  lemma TopMultiple(a: nat, q: nat, b: nat)
    requires a * q < a * b <= a * q + a
    ensures a * q == a * b - a
  {
    assert a * q + a == a * (q + 1);
    if q + 1 < b {
      MulMonotone(a, q + 2, b);
    } else if q >= b {
      MulMonotone(a, b, q);
    }
  }

  /** The mask check accepts exactly the masks of prefix lengths 1 to 31, and the
      prefix length read back is the one the mask was made from. */
  lemma ValidMasks(mask: U32)
    ensures IsNetMaskValid(mask) <==>
            1 <= GetPrefixLen(mask) <= 31 && PrefixLenToSubnet(GetPrefixLen(mask)) == Some(mask)
  {
    Swap32Twice(mask);
    if IsNetMaskValid(mask) {
      ContiguousIsHostMask(Swap32(mask));
    }
    var p := GetPrefixLen(mask);
    if 1 <= p <= 31 && PrefixLenToSubnet(p) == Some(mask) {
      Swap32Twice(HostMask(p));
      HostMaskIsContiguous(p);
    }
  }

  /** A prefix length from 1 to 31 survives the trip to a mask and back. */
  lemma PrefixLenRoundTrip(p: nat)
    requires 1 <= p <= 31
    ensures var mask := PrefixLenToSubnet(p).value; IsNetMaskValid(mask) && GetPrefixLen(mask) == p
  {
    Swap32Twice(HostMask(p));
    HostMaskIsContiguous(p);
  }

  /** Two valid masks with one prefix length are the same mask. */
  lemma PrefixLenInjective(a: U32, b: U32)
    requires IsNetMaskValid(a) && IsNetMaskValid(b) && GetPrefixLen(a) == GetPrefixLen(b)
    ensures a == b
  {
    ValidMasks(a);
    ValidMasks(b);
  }
}
