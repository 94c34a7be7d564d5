/** IPv4 addresses as text and as 32-bit numbers, and the receiver's address pool. */
module Addresses {
  import opened Common
  import opened Text

  function Octets(n: u32): (b: seq<byte>)
    ensures |b| == 4
  {
    [n / 0x100_0000, n / 0x1_0000 % 256, n / 256 % 256, n % 256]
  }

  function FromOctets(b: seq<byte>): (n: u32)
    requires |b| == 4
    ensures Octets(n) == b
  {
    var high, low := (b[0] as int) * 256 + b[1], (b[2] as int) * 256 + b[3];
    HalvesOf(high, low);
    assert high / 256 == b[0] && high % 256 == b[1] && low / 256 == b[2] && low % 256 == b[3];
    high * 0x1_0000 + low
  }

  lemma HalvesOf(high: nat, low: nat)
    requires high < 0x1_0000 && low < 0x1_0000
    ensures var n := high * 0x1_0000 + low;
            && n < TWO32
            && n / 0x100_0000 == high / 256 && n / 0x1_0000 % 256 == high % 256
            && n / 256 % 256 == low / 256 && n % 256 == low % 256
  {
    var n := high * 0x1_0000 + low;
    QuotientUnique(n, 0x1_0000, high, low);
    QuotientUnique(n, 0x100_0000, high / 256, high % 256 * 0x1_0000 + low);
    QuotientUnique(n, 256, high * 256 + low / 256, low % 256);
    ModShift(high, 256, low / 256);
  }

  lemma OctetsRoundTrip(n: u32)
    ensures FromOctets(Octets(n)) == n
  {
    var high, low := n / 0x1_0000, n % 0x1_0000;
    HalvesOf(high, low);
    assert Octets(n) == [high / 256, high % 256, low / 256, low % 256];
  }

  function Fields(b: seq<byte>): (f: seq<string>)
    requires |b| == 4
    ensures |f| == 4
  {
    [Decimal(b[0]), Decimal(b[1]), Decimal(b[2]), Decimal(b[3])]
  }

  /** Four bytes joined by dots. */
  function Dotted(b: seq<byte>): string
    requires |b| == 4
  {
    Join(Fields(b), '.')
  }

  /** `address(value)` */
  function Address(n: u32): string {
    Dotted(Octets(n))
  }

  predicate UnicastOctets(b: seq<byte>)
    requires |b| == 4
  {
    b[0] != 0 && b[0] != 127 && b[0] < 224 && !(b[0] == 169 && b[1] == 254)
  }

  predicate Unicast(n: u32) {
    UnicastOctets(Octets(n))
  }

  /** The numbers that are not unicast here: "this network", loopback, link-local, and everything from multicast on. */
  lemma UnicastRanges(n: u32)
    ensures Unicast(n) <==>
              && n >= 0x0100_0000 && !(0x7f00_0000 <= n < 0x8000_0000) && n < 0xe000_0000
              && !(0xa9fe_0000 <= n < 0xa9ff_0000)
  {
    var high, rest := n / 0x1_0000, n % 0x1_0000;
    assert n / 0x100_0000 == high / 256;
  }

  /** One field of a strictly written address: no leading zero, at most 255. */
  predicate StrictField(s: string) {
    Canonical(s) && |s| <= 3 && Number(s) <= 255
  }

  /** `ipv4(value)`; `None` stands for the exception. */
  function Ipv4(value: string): Option<u32> {
    var parts := Split(value, '.');
    if |parts| != 4 || exists i | 0 <= i < |parts| :: !StrictField(parts[i]) then None
    else
      var b: seq<byte> := [Number(parts[0]), Number(parts[1]), Number(parts[2]), Number(parts[3])];
      if UnicastOctets(b) then Some(FromOctets(b)) else None
  }

  lemma SplitOfDotted(b: seq<byte>)
    requires |b| == 4
    ensures Split(Dotted(b), '.') == Fields(b)
    ensures forall i | 0 <= i < 4 :: StrictField(Fields(b)[i]) && Number(Fields(b)[i]) == b[i]
  {
    forall i | 0 <= i < 4 ensures StrictField(Fields(b)[i]) && Number(Fields(b)[i]) == b[i] && '.' !in Fields(b)[i] {
      DecimalDigits(b[i]);
      NumberOfDecimal(b[i]);
    }
    SplitOfJoin(Fields(b), '.');
  }

  lemma DottedInjective(a: seq<byte>, b: seq<byte>)
    requires |a| == |b| == 4
    requires Dotted(a) == Dotted(b)
    ensures a == b
  {
    SplitOfDotted(a);
    SplitOfDotted(b);
    forall i | 0 <= i < 4 ensures a[i] == b[i] {
      assert Number(Fields(a)[i]) == Number(Fields(b)[i]);
    }
  }

  lemma Ipv4OfAddress(n: u32)
    requires Unicast(n)
    ensures Ipv4(Address(n)) == Some(n)
  {
    SplitOfDotted(Octets(n));
    OctetsRoundTrip(n);
    var parts := Split(Address(n), '.');
    assert [Number(parts[0]), Number(parts[1]), Number(parts[2]), Number(parts[3])] == Octets(n);
  }

  lemma AddressOfIpv4(value: string, n: u32)
    requires Ipv4(value) == Some(n)
    ensures Unicast(n) && value == Address(n)
  {
    var parts := Split(value, '.');
    assert forall i | 0 <= i < 4 :: StrictField(parts[i]);
    var b: seq<byte> := [Number(parts[0]), Number(parts[1]), Number(parts[2]), Number(parts[3])];
    assert Octets(n) == b;
    FieldsOfNumbers(parts, b);
    JoinOfSplit(value, '.');
  }

  lemma FieldsOfNumbers(parts: seq<string>, b: seq<byte>)
    requires |parts| == |b| == 4 && forall i | 0 <= i < 4 :: StrictField(parts[i]) && b[i] == Number(parts[i])
    ensures Fields(b) == parts
  {
    forall i | 0 <= i < 4 ensures Decimal(b[i]) == parts[i] {
      DecimalOfNumber(parts[i]);
    }
  }

  /** Parsing accepts exactly the canonical text of a unicast number, and returns that number. */
  lemma Ipv4IsInverseOfAddress(value: string, n: u32)
    ensures Ipv4(value) == Some(n) <==> Unicast(n) && value == Address(n)
  {
    if Unicast(n) && value == Address(n) {
      Ipv4OfAddress(n);
    }
    if Ipv4(value) == Some(n) {
      AddressOfIpv4(value, n);
    }
  }

  lemma AddressInjective(a: u32, b: u32)
    requires Address(a) == Address(b)
    ensures a == b
  {
    DottedInjective(Octets(a), Octets(b));
    OctetsRoundTrip(a);
    OctetsRoundTrip(b);
  }

  /** The usable numbers of a pool, network and broadcast address excluded. */
  datatype Range = Range(first: int, last: int) {
    predicate Contains(n: int) {
      first <= n <= last
    }
  }

  /** The prefix length in a pool's second field, if it is one that pools may have. */
  function PoolBits(field: string): (bits: Option<nat>)
    ensures bits.Some? ==> 16 <= bits.value <= 30 && field == Decimal(bits.value)
  {
    if field == "" || !AllDigits(field) then None
    else
      var bits := Number(field);
      if bits < 16 || bits > 30 || Decimal(bits) != field then None else Some(bits)
  }

  predicate Aligned(base: int, size: nat)
    requires size > 0
  {
    base % size == 0
  }

  /** A pool is one aligned power-of-two block of 4 to 65536 addresses. */
  ghost predicate IsBlock(base: int, bits: nat) {
    16 <= bits <= 30 && 0 <= base < TWO32 && Aligned(base, Pow2(32 - bits))
  }

  /** The last number of a block exists and is unicast. */
  predicate EndsUnicast(base: u32, size: nat)
    requires size > 0
  {
    base + size <= TWO32 && Ipv4(Address(base + size - 1)).Some?
  }

  /** A pool's network number and prefix length. */
  datatype Block = Block(base: u32, bits: nat)

  /** The pool's block; `None` stands for the exception. */
  function ParsePool(pool: string): (r: Option<Block>)
    ensures r.Some? ==> 16 <= r.value.bits <= 30
  {
    var parts := Split(pool, '/');
    if |parts| != 2 then None
    else
      var base, bits := Ipv4(parts[0]), PoolBits(parts[1]);
      if base.None? || bits.None? then None
      else
        var size := Pow2(32 - bits.value);
        if !Aligned(base.value, size) || !EndsUnicast(base.value, size) then None
        else Some(Block(base.value, bits.value))
  }

  /** The usable numbers of a block: all but the first and the last. */
  function Usable(base: int, size: int): Range {
    Range(base + 1, base + size - 2)
  }

  /** `poolRange(pool)` */
  function PoolRange(pool: string): (r: Option<Range>)
    ensures r.Some? ==> 0 < r.value.first && r.value.last + 1 < TWO32
  {
    var block := ParsePool(pool);
    if block.None? then None else Some(Usable(block.value.base, Pow2(32 - block.value.bits)))
  }

  lemma Pow2Facts()
    ensures Pow2(16) == 0x1_0000 && Pow2(32) == TWO32
    ensures Pow2(2) == 4 && Pow2(5) == 32
  {
    assert Pow2(4) == 16;
    assert Pow2(8) == 256 by { Pow2Sum(4, 4); }
    assert Pow2(16) == 0x1_0000 by { Pow2Sum(8, 8); }
    assert Pow2(32) == TWO32 by { Pow2Sum(16, 16); }
  }

  lemma {:induction false} Pow2Monotone(a: nat, b: nat)
    requires a <= b
    ensures Pow2(a) <= Pow2(b)
    decreases b
  {
    if a < b {
      Pow2Monotone(a, b - 1);
    }
  }

  lemma BlockSize(bits: nat)
    requires 16 <= bits <= 30
    ensures 4 <= Pow2(32 - bits) <= 0x1_0000
  {
    Pow2Facts();
    Pow2Monotone(2, 32 - bits);
    Pow2Monotone(32 - bits, 16);
  }

  /** An aligned block that divides a larger aligned block does not straddle it. */
  lemma BlockStaysInside(base: int, s: int, t: int, big: int, n: int)
    requires s > 0 && t > 0 && s * t == big && base >= 0 && base % s == 0
    requires base <= n < base + s
    ensures n / big == base / big
  {
    var q := base / s;
    assert base == q * s;
    var h := base / big;
    var l := base % big;
    assert l == s * (q - h * t) by {
      assert h * big == (h * t) * s;
      assert q * s - (h * t) * s == s * (q - h * t);
    }
    if q - h * t >= t {
      MulMonotone(t, q - h * t, s);
    }
    MulMonotone(q - h * t, t - 1, s);
    assert l <= s * (t - 1);
    assert s * (t - 1) == big - s;
    assert n == h * big + (l + (n - base)) && 0 <= l + (n - base) < big;
    QuotientUnique(n, big, h, l + (n - base));
  }

  lemma UnicastDependsOnHighHalf(a: u32, b: u32)
    requires a / 0x1_0000 == b / 0x1_0000
    ensures Unicast(a) <==> Unicast(b)
  {
    assert a / 0x100_0000 == a / 0x1_0000 / 256 && b / 0x100_0000 == b / 0x1_0000 / 256;
  }

  /** A block no larger than /16 is unicast throughout, or nowhere. */
  lemma BlockUnicast(base: u32, bits: nat, n: int)
    requires IsBlock(base, bits)
    requires base <= n < base + Pow2(32 - bits)
    ensures n < TWO32 && (Unicast(n) <==> Unicast(base))
  {
    Pow2Facts();
    Pow2Sum(32 - bits, bits - 16);
    BlockStaysInside(base, Pow2(32 - bits), Pow2(bits - 16), 0x1_0000, n);
    assert base / 0x1_0000 < 0x1_0000;
    UnicastDependsOnHighHalf(n, base);
  }

  /** What an accepted pool is: an aligned block, minus its first and last number. */
  lemma PoolBlock(pool: string) returns (base: u32, bits: nat)
    requires PoolRange(pool).Some?
    ensures IsBlock(base, bits) && Unicast(base) && base + Pow2(32 - bits) <= TWO32
    ensures 4 <= Pow2(32 - bits) <= 0x1_0000
    ensures Split(pool, '/') == [Address(base), Decimal(bits)]
    ensures PoolRange(pool) == Some(Usable(base, Pow2(32 - bits)))
  {
    var parts := Split(pool, '/');
    base, bits := ParsePool(pool).value.base, ParsePool(pool).value.bits;
    AddressOfIpv4(parts[0], base);
    BlockSize(bits);
    assert parts == [parts[0], parts[1]];
  }

  /** Every number of an accepted pool is unicast, and its text reads back as that number. */
  lemma PoolNumber(pool: string, n: int)
    requires PoolRange(pool).Some?
    requires PoolRange(pool).value.first - 1 <= n <= PoolRange(pool).value.last + 1
    ensures 0 <= n < TWO32 && Unicast(n) && Ipv4(Address(n)) == Some(n)
  {
    var base, bits := PoolBlock(pool);
    BlockUnicast(base, bits, n);
    Ipv4IsInverseOfAddress(Address(n), n);
  }

  lemma BlockEnd(base: u32, bits: nat) returns (n: u32)
    requires IsBlock(base, bits) && Unicast(base)
    ensures n == base + Pow2(32 - bits) - 1 && Unicast(n)
  {
    BlockUnicast(base, bits, base + Pow2(32 - bits) - 1);
    n := base + Pow2(32 - bits) - 1;
  }

  /** The final unicast check of `poolRange` never fails: alignment already keeps the block inside one /16. */
  lemma LastPoolAddressIsUnicast(base: u32, bits: nat)
    requires IsBlock(base, bits) && Unicast(base)
    ensures EndsUnicast(base, Pow2(32 - bits))
  {
    var n := BlockEnd(base, bits);
    Ipv4IsInverseOfAddress(Address(n), n);
  }

  lemma SplitOfPair(a: string, b: string)
    requires '/' !in a && '/' !in b
    ensures Split(a + "/" + b, '/') == [a, b]
  {
    SplitOfJoin([a, b], '/');
    assert [a, b][1..] == [b];
  }

  lemma {:induction false} DecimalHasNoSlash(n: nat)
    ensures '/' !in Decimal(n)
  {
    if n >= 10 {
      DecimalHasNoSlash(n / 10);
    }
  }

  lemma AddressHasNoSlash(n: u32)
    ensures '/' !in Address(n)
  {
    forall i | 0 <= i < 4 ensures '/' !in Fields(Octets(n))[i] {
      DecimalHasNoSlash(Octets(n)[i]);
    }
    JoinLacks(Fields(Octets(n)), '.', '/');
  }

  /** The canonical CIDR text of a block. */
  function BlockText(base: u32, bits: nat): string {
    Address(base) + "/" + Decimal(bits)
  }

  /** `poolRange` accepts exactly the canonical texts of aligned unicast blocks of prefix 16 to 30. */
  lemma PoolAcceptedExactly(pool: string)
    ensures PoolRange(pool).Some? <==>
            exists base: u32, bits: nat :: IsBlock(base, bits) && Unicast(base) && pool == BlockText(base, bits)
  {
    if PoolRange(pool).Some? {
      var base, bits := PoolBlock(pool);
      JoinOfSplit(pool, '/');
      assert Split(pool, '/')[1..] == [Decimal(bits)];
      assert pool == BlockText(base, bits);
    }
    if base: u32, bits: nat :| IsBlock(base, bits) && Unicast(base) && pool == BlockText(base, bits) {
      BlockIsAccepted(base, bits);
    }
  }

  lemma BlockTextParts(base: u32, bits: nat)
    ensures Split(BlockText(base, bits), '/') == [Address(base), Decimal(bits)]
  {
    AddressHasNoSlash(base);
    DecimalHasNoSlash(bits);
    SplitOfPair(Address(base), Decimal(bits));
  }

  lemma PoolBitsOfDecimal(bits: nat)
    requires 16 <= bits <= 30
    ensures PoolBits(Decimal(bits)) == Some(bits)
  {
    DecimalDigits(bits);
    NumberOfDecimal(bits);
  }

  lemma BlockIsAccepted(base: u32, bits: nat)
    requires IsBlock(base, bits) && Unicast(base)
    ensures PoolRange(BlockText(base, bits)) == Some(Usable(base, Pow2(32 - bits)))
  {
    BlockTextParts(base, bits);
    Ipv4OfAddress(base);
    PoolBitsOfDecimal(bits);
    LastPoolAddressIsUnicast(base, bits);
  }
}
