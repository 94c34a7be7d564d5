/** Overlap between the receiver's pool and the host's IPv4 routes. */
module Routes {
  import opened Common
  import opened Text
  import opened Addresses

  /** Bitwise `&` of two naturals, bit by bit. */
  function And(a: nat, b: nat): (r: nat) {
    if a == 0 || b == 0 then 0
    else 2 * And(a / 2, b / 2) + if a % 2 == 1 && b % 2 == 1 then 1 else 0
  }

  /** `(0xffffffff << (32 - bits)) >>> 0` */
  function Mask(bits: nat): u32
    requires bits <= 32
  {
    Wrap32(0xffff_ffff * Pow2(32 - bits))
  }

  lemma MaskValue(bits: nat)
    requires 1 <= bits <= 32
    ensures Mask(bits) == Pow2(32) - Pow2(32 - bits)
  {
    Pow2Facts();
    var p := Pow2(32 - bits);
    Pow2Monotone(32 - bits, 32);
    if bits < 32 {
      Pow2Monotone(0, 32 - bits);
    }
    assert Pow2(32 - bits) <= Pow2(31) by { Pow2Monotone(32 - bits, 31); }
    assert 0xffff_ffff * p == (p - 1) * TWO32 + (TWO32 - p);
    QuotientUnique(0xffff_ffff * p, TWO32, p - 1, TWO32 - p);
  }

  lemma DivDiv(a: nat, p: nat, q: nat)
    requires p > 0 && q > 0
    ensures p * q > 0
    ensures a / p / q == a / (p * q)
  {
    var x := a / p;
    var y := x / q;
    assert p * q > 0;
    var r := x % q * p + a % p;
    assert a == y * (p * q) + r by {
      assert a == x * p + a % p;
      assert x == y * q + x % q;
      assert (y * q + x % q) * p == y * (p * q) + x % q * p;
    }
    MulMonotone(x % q, q - 1, p);
    assert (q - 1) * p == p * q - p;
    QuotientUnique(a, p * q, y, r);
  }

  lemma {:induction false} AndAllOnes(a: nat, w: nat)
    requires a < Pow2(w)
    ensures And(a, Pow2(w) - 1) == a
  {
    if w > 0 {
      var ones: nat := Pow2(w - 1) - 1;
      AndAllOnes(a / 2, w - 1);
      AndOdd(a, ones);
    }
  }

  lemma AndOdd(a: nat, b: nat)
    ensures And(a, 2 * b + 1) == if a == 0 then 0 else 2 * And(a / 2, b) + a % 2
  {
    QuotientUnique(2 * b + 1, 2, b, 1);
  }

  lemma AndEven(a: nat, b: nat)
    ensures And(a, 2 * b) == 2 * And(a / 2, b)
  {
    assert 2 * b / 2 == b && 2 * b % 2 == 0;
  }

  lemma HalvedQuotient(a: nat, p: nat)
    requires p > 0
    ensures 2 * (a / 2 / p * p) == a / (2 * p) * (2 * p)
  {
    DivDiv(a, 2, p);
    var q := a / (2 * p);
    assert 2 * (q * p) == q * (2 * p);
  }

  /** `a` rounded down to a multiple of 2^k. */
  function RoundDown(a: nat, k: nat): int {
    a / Pow2(k) * Pow2(k)
  }

  lemma RoundDownHalf(a: nat, k: nat, j: nat)
    requires k == j + 1
    ensures 2 * RoundDown(a / 2, j) == RoundDown(a, k)
  {
    HalvedQuotient(a, Pow2(j));
  }

  lemma RoundDownByOne(a: nat)
    ensures RoundDown(a, 0) == a
  {
    assert Pow2(0) == 1;
  }

  /** The mask that clears the low `k` of `w` bits. */
  function HighBits(w: nat, k: nat): (m: nat)
    requires k <= w
  {
    Pow2Monotone(k, w);
    Pow2(w) - Pow2(k)
  }

  lemma HighBitsHalf(w: nat, k: nat, v: nat, j: nat)
    requires w == v + 1 && k == j + 1 && k <= w
    ensures HighBits(w, k) == 2 * HighBits(v, j)
  {
  }

  /** Masking with the top `w - k` of `w` bits rounds down to a multiple of 2^k. */
  lemma {:induction false} AndMask(a: nat, w: nat, k: nat)
    requires a < Pow2(w) && k <= w
    ensures And(a, HighBits(w, k)) == RoundDown(a, k)
  {
    if k == 0 {
      AndAllOnes(a, w);
      RoundDownByOne(a);
    } else {
      var v: nat, j: nat := w - 1, k - 1;
      HalfBelow(a, Pow2(v));
      AndMask(a / 2, v, j);
      HighBitsHalf(w, k, v, j);
      AndEven(a, HighBits(v, j));
      RoundDownHalf(a, k, j);
    }
  }

  lemma HalfBelow(a: nat, p: nat)
    requires a < 2 * p
    ensures a / 2 < p
  {
  }

  /** `b` lies in the CIDR block of prefix length `bits` around `a`. */
  ghost predicate SameBlock(a: u32, b: u32, bits: nat)
    requires bits <= 32
  {
    a / Pow2(32 - bits) == b / Pow2(32 - bits)
  }

  /** Comparing under the mask is comparing quotients by the block size. */
  lemma MaskComparesBlocks(a: u32, b: u32, bits: nat)
    requires 1 <= bits <= 32
    ensures And(a, Mask(bits)) == And(b, Mask(bits)) <==> SameBlock(a, b, bits)
  {
    Pow2Facts();
    MaskValue(bits);
    AndMask(a, 32, 32 - bits);
    AndMask(b, 32, 32 - bits);
    SameFloor(a, b, Pow2(32 - bits));
  }

  lemma SameFloor(a: nat, b: nat, p: nat)
    requires p > 0
    ensures a / p * p == b / p * p <==> a / p == b / p
  {
    SameProduct(a / p, b / p, p);
  }

  lemma SameProduct(x: nat, y: nat, p: nat)
    requires p > 0
    ensures x * p == y * p <==> x == y
  {
    if x < y {
      MulMonotone(x + 1, y, p);
    } else if y < x {
      MulMonotone(y + 1, x, p);
    }
  }

  /** One field of a loosely written address: one to three digits, at most 255. */
  predicate LooseField(s: string) {
    1 <= |s| <= 3 && AllDigits(s) && Number(s) <= 255
  }

  /** `toNumber(input)` */
  function ToNumber(input: string): Option<u32> {
    var f := Split(input, '.');
    if |f| != 4 || exists i | 0 <= i < |f| :: !LooseField(f[i]) then None
    else Some(FromOctets([Number(f[0]), Number(f[1]), Number(f[2]), Number(f[3])]))
  }

  lemma ToNumberOfAddress(n: u32)
    ensures ToNumber(Address(n)) == Some(n)
  {
    SplitOfDotted(Octets(n));
    OctetsRoundTrip(n);
    var f := Split(Address(n), '.');
    assert [Number(f[0]), Number(f[1]), Number(f[2]), Number(f[3])] == Octets(n);
  }

  /** The prefix length of a route, 32 when it has none; `None` when it is not a number from 1 to 32. */
  function PrefixBits(parts: seq<string>): Option<nat>
    requires |parts| >= 1
  {
    if |parts| == 1 then Some(32)
    else if |parts| > 2 || parts[1] == "" || !AllDigits(parts[1]) then None
    else if Number(parts[1]) < 1 || Number(parts[1]) > 32 then None
    else Some(Number(parts[1]))
  }

  predicate IsDefault(route: string) {
    route == "default" || route == "0.0.0.0/0"
  }

  /** `routeContains(route, address)` */
  predicate RouteContains(route: string, address: string) {
    !IsDefault(route)
    && var parts := Split(route, '/');
    var bits, network, target := PrefixBits(parts), ToNumber(parts[0]), ToNumber(address);
    bits.Some? && network.Some? && target.Some?
    && And(network.value, Mask(bits.value)) == And(target.value, Mask(bits.value))
  }

  /** The address part of a CIDR text. */
  function BaseText(cidr: string): string {
    Split(cidr, '/')[0]
  }

  /** The block a well-formed non-default route denotes. */
  ghost predicate Denotes(route: string, network: u32, bits: nat) {
    && !IsDefault(route)
    && PrefixBits(Split(route, '/')) == Some(bits)
    && ToNumber(BaseText(route)) == Some(network)
  }

  lemma RouteContainsBlock(route: string, network: u32, bits: nat, address: string, target: u32)
    requires Denotes(route, network, bits) && ToNumber(address) == Some(target)
    ensures RouteContains(route, address) <==> SameBlock(network, target, bits)
  {
    MaskComparesBlocks(network, target, bits);
  }

  lemma DefaultRouteParts()
    ensures |Split("default", '/')| == 1
    ensures Split("0.0.0.0/0", '/') == ["0.0.0.0", "0"] && AllDigits("0") && Number("0") == 0
  {
    SplitNone("default", '/');
    assert "0.0.0.0/0" == "0.0.0.0" + ['/'] + "0";
    SplitFirst("0.0.0.0", '/', "0");
    SplitNone("0", '/');
    NumberOfDecimal(0);
    assert Decimal(0) == "0";
  }

  /** A valid pool, read as a route, denotes its own block. */
  lemma PoolDenotes(pool: string) returns (base: u32, bits: nat)
    requires PoolRange(pool).Some?
    ensures IsBlock(base, bits) && Denotes(pool, base, bits)
    ensures PoolRange(pool) == Some(Usable(base, Pow2(32 - bits)))
  {
    base, bits := PoolBlock(pool);
    ToNumberOfAddress(base);
    NumberOfDecimal(bits);
    DecimalDigits(bits);
    DefaultRouteParts();
    assert Split(pool, '/')[1] == Decimal(bits);
  }

  lemma CoarserBlock(a: u32, b: u32, fine: nat, coarse: nat)
    requires coarse <= fine <= 32 && SameBlock(a, b, fine)
    ensures SameBlock(a, b, coarse)
  {
    Pow2Sum(32 - fine, fine - coarse);
    DivDiv(a, Pow2(32 - fine), Pow2(fine - coarse));
    DivDiv(b, Pow2(32 - fine), Pow2(fine - coarse));
  }

  /** Some address belongs to both blocks. */
  ghost predicate BlocksMeet(n1: u32, bits1: nat, n2: u32, bits2: nat)
    requires bits1 <= 32 && bits2 <= 32
  {
    exists a: u32 :: SameBlock(n1, a, bits1) && SameBlock(n2, a, bits2)
  }

  /** Two CIDR blocks meet exactly when one contains the other's base. */
  lemma BlocksMeetAtABase(n1: u32, bits1: nat, n2: u32, bits2: nat)
    requires bits1 <= 32 && bits2 <= 32
    ensures BlocksMeet(n1, bits1, n2, bits2) <==> SameBlock(n1, n2, bits1) || SameBlock(n2, n1, bits2)
  {
    if SameBlock(n1, n2, bits1) {
      assert SameBlock(n2, n2, bits2);
    }
    if SameBlock(n2, n1, bits2) {
      assert SameBlock(n1, n1, bits1);
    }
    if BlocksMeet(n1, bits1, n2, bits2) {
      var a: u32 :| SameBlock(n1, a, bits1) && SameBlock(n2, a, bits2);
      if bits1 <= bits2 {
        CoarserBlock(n2, a, bits2, bits1);
      } else {
        CoarserBlock(n1, a, bits1, bits2);
      }
    }
  }

  lemma QuotientInterval(base: nat, p: nat, a: nat)
    requires p > 0 && base % p == 0
    ensures base / p == a / p <==> base <= a < base + p
  {
    var q, q', r' := base / p, a / p, a % p;
    assert base == q * p && a == q' * p + r';
    if q' < q {
      MulMonotone(q' + 1, q, p);
    } else if q < q' {
      MulMonotone(q + 1, q', p);
    }
  }

  lemma BlockIsInterval(base: u32, bits: nat, a: u32)
    requires IsBlock(base, bits)
    ensures SameBlock(base, a, bits) <==> base <= a < base + Pow2(32 - bits)
  {
    QuotientInterval(base, Pow2(32 - bits), a);
  }

  /** The two-sided containment test of `checkPoolRoutes`. */
  predicate Conflicts(pool: string, dst: string) {
    RouteContains(dst, BaseText(pool)) || RouteContains(pool, BaseText(dst))
  }

  /** The test is exact: it reports a conflict if and only if pool and route share an address. */
  lemma OverlapTestIsExact(pool: string, dst: string, network: u32, bits: nat) returns (base: u32, poolBits: nat)
    requires PoolRange(pool).Some? && Denotes(dst, network, bits)
    ensures poolBits <= 32 && bits <= 32
    ensures PoolRange(pool) == Some(Usable(base, Pow2(32 - poolBits)))
    ensures Conflicts(pool, dst) <==> BlocksMeet(network, bits, base, poolBits)
    ensures Conflicts(pool, dst) <==>
            exists a: u32 :: SameBlock(network, a, bits) && base <= a < base + Pow2(32 - poolBits)
  {
    base, poolBits := PoolDenotes(pool);
    RouteContainsBlock(dst, network, bits, BaseText(pool), base);
    RouteContainsBlock(pool, base, poolBits, BaseText(dst), network);
    BlocksMeetAtABase(network, bits, base, poolBits);
    forall a: u32 ensures SameBlock(base, a, poolBits) <==> base <= a < base + Pow2(32 - poolBits) {
      BlockIsInterval(base, poolBits, a);
    }
  }

  /** One entry of the host's route list, as far as the check looks at it. */
  datatype RouteItem = RouteItem(dst: Option<string>, dev: Option<string>)

  predicate Considered(item: RouteItem, ignoreInterface: Option<string>) {
    item.dst.Some? && !IsDefault(item.dst.value)
    && !(ignoreInterface.Some? && ignoreInterface.value != "" && item.dev == ignoreInterface)
  }

  /** The route text denotes a block. */
  predicate WellFormedRoute(dst: string) {
    !IsDefault(dst) && PrefixBits(Split(dst, '/')).Some? && ToNumber(BaseText(dst)).Some?
  }

  /** The address lies in the route's block. */
  ghost predicate InRoute(dst: string, a: u32)
    requires WellFormedRoute(dst)
  {
    SameBlock(ToNumber(BaseText(dst)).value, a, PrefixBits(Split(dst, '/')).value)
  }

  /** The address lies in the pool, its first and last number included. */
  predicate InPool(pool: string, a: int)
    requires PoolRange(pool).Some?
  {
    PoolRange(pool).value.first - 1 <= a <= PoolRange(pool).value.last + 1
  }

  /** Pool and route share an address; of a route that denotes no block only the address part counts. */
  ghost predicate Shares(pool: string, dst: string)
    requires PoolRange(pool).Some?
  {
    if WellFormedRoute(dst) then exists a: u32 :: InRoute(dst, a) && InPool(pool, a)
    else ToNumber(BaseText(dst)).Some? && InPool(pool, ToNumber(BaseText(dst)).value)
  }

  lemma PoolIsInterval(pool: string, base: u32, size: nat)
    requires PoolRange(pool) == Some(Usable(base, size))
    ensures forall a: int :: InPool(pool, a) <==> base <= a < base + size
  {
  }

  lemma ConflictsWithBlock(pool: string, dst: string)
    requires PoolRange(pool).Some? && WellFormedRoute(dst)
    ensures Conflicts(pool, dst) <==> Shares(pool, dst)
  {
    var network, bits := ToNumber(BaseText(dst)).value, PrefixBits(Split(dst, '/')).value;
    var base, poolBits := OverlapTestIsExact(pool, dst, network, bits);
    PoolIsInterval(pool, base, Pow2(32 - poolBits));
    assert forall a: u32 :: InRoute(dst, a) <==> SameBlock(network, a, bits);
  }

  lemma ConflictsWithAddress(pool: string, dst: string)
    requires PoolRange(pool).Some? && !IsDefault(dst) && !WellFormedRoute(dst)
    ensures Conflicts(pool, dst) <==> Shares(pool, dst)
  {
    if ToNumber(BaseText(dst)).Some? {
      var base, bits := PoolDenotes(pool);
      var target := ToNumber(BaseText(dst)).value;
      RouteContainsBlock(pool, base, bits, BaseText(dst), target);
      BlockIsInterval(base, bits, target);
      PoolIsInterval(pool, base, Pow2(32 - bits));
    }
  }

  /** For every accepted pool and every route text but the default ones, the test reports a conflict if and only if they
      share an address. */
  lemma ConflictsExactly(pool: string, dst: string)
    requires PoolRange(pool).Some? && !IsDefault(dst)
    ensures Conflicts(pool, dst) <==> Shares(pool, dst)
  {
    if WellFormedRoute(dst) {
      ConflictsWithBlock(pool, dst);
    } else {
      ConflictsWithAddress(pool, dst);
    }
  }

  lemma AddressIsNotDefault(n: u32)
    ensures !IsDefault(Address(n))
  {
    AddressHasNoSlash(n);
    SplitOfDotted(Octets(n));
    SplitNone("default", '.');
    assert "0.0.0.0/0"[7] == '/';
  }

  lemma BareRouteParses(n: u32)
    ensures Denotes(Address(n), n, 32)
  {
    AddressIsNotDefault(n);
    AddressHasNoSlash(n);
    SplitNone(Address(n), '/');
    ToNumberOfAddress(n);
  }

  /** A destination written as an address alone denotes that one address. */
  lemma BareRouteIsOneAddress(n: u32)
    ensures WellFormedRoute(Address(n)) && forall a: u32 :: InRoute(Address(n), a) <==> a == n
  {
    BareRouteParses(n);
    assert Pow2(32 - 32) == 1;
  }

  /** A destination written as an address and a prefix of 1 to 32 denotes the aligned block around the address. */
  lemma WrittenRouteIsBlock(n: u32, bits: nat)
    requires 1 <= bits <= 32
    ensures WellFormedRoute(BlockText(n, bits))
    ensures var first := n - n % Pow2(32 - bits);
            forall a: u32 :: InRoute(BlockText(n, bits), a) <==> first <= a < first + Pow2(32 - bits)
  {
    WrittenRouteParses(n, bits);
    var size := Pow2(32 - bits);
    forall a: u32 ensures n / size == a / size <==> n - n % size <= a < n - n % size + size {
      BlockAround(n, size, a);
    }
  }

  lemma WrittenRouteParses(n: u32, bits: nat)
    requires 1 <= bits <= 32
    ensures Denotes(BlockText(n, bits), n, bits)
  {
    BlockTextParts(n, bits);
    ToNumberOfAddress(n);
    NumberOfDecimal(bits);
    DecimalDigits(bits);
    DefaultRouteParts();
  }

  lemma BlockAround(n: nat, size: nat, a: nat)
    requires size > 0
    ensures n / size == a / size <==> n - n % size <= a < n - n % size + size
  {
    var first := n - n % size;
    assert first == n / size * size + 0;
    QuotientUnique(first, size, n / size, 0);
    QuotientInterval(first, size, a);
  }

  /** The overlap test on what is written: a pool and a route conflict exactly if their two intervals of numbers
      meet. */
  lemma WrittenRouteConflicts(base: u32, poolBits: nat, n: u32, bits: nat)
    requires IsBlock(base, poolBits) && Unicast(base) && 1 <= bits <= 32
    ensures var first := n - n % Pow2(32 - bits);
            Conflicts(BlockText(base, poolBits), BlockText(n, bits)) <==>
              first < base + Pow2(32 - poolBits) && base < first + Pow2(32 - bits)
  {
    var pool, dst := BlockText(base, poolBits), BlockText(n, bits);
    var size, first := Pow2(32 - poolBits), n - n % Pow2(32 - bits);
    BlockIsAccepted(base, poolBits);
    PoolIsInterval(pool, base, size);
    WrittenRouteIsBlock(n, bits);
    ConflictsExactly(pool, dst);
    var meet := if first > base then first else base;
    if first < base + size && base < first + Pow2(32 - bits) {
      assert InRoute(dst, meet) && InPool(pool, meet);
    }
  }

  lemma SharesOneAddress(pool: string, dst: string, n: u32)
    requires PoolRange(pool).Some? && WellFormedRoute(dst) && forall a: u32 :: InRoute(dst, a) <==> a == n
    ensures Shares(pool, dst) <==> InPool(pool, n)
  {
  }

  /** A pool and a bare address conflict exactly if the address lies in the pool's interval. */
  lemma BareRouteConflicts(base: u32, poolBits: nat, n: u32)
    requires IsBlock(base, poolBits) && Unicast(base)
    ensures Conflicts(BlockText(base, poolBits), Address(n)) <==> base <= n < base + Pow2(32 - poolBits)
  {
    var pool := BlockText(base, poolBits);
    BlockIsAccepted(base, poolBits);
    PoolIsInterval(pool, base, Pow2(32 - poolBits));
    BareRouteIsOneAddress(n);
    SharesOneAddress(pool, Address(n), n);
    ConflictsExactly(pool, Address(n));
  }

  /** `checkPoolRoutes(pool, ignoreInterface)` on a given route list; the result says whether it throws a route
      conflict. */
  method CheckPoolRoutes(pool: string, ignoreInterface: Option<string>, routes: seq<RouteItem>) returns (conflict: bool)
    ensures conflict <==>
            exists i :: 0 <= i < |routes| && Considered(routes[i], ignoreInterface)
              && Conflicts(pool, routes[i].dst.value)
    ensures PoolRange(pool).Some? ==>
              (conflict <==>
               exists i :: 0 <= i < |routes| && routes[i].dst.Some?
                 && routes[i].dst.value != "default" && routes[i].dst.value != "0.0.0.0/0"
                 && (ignoreInterface in {None, Some("")} || routes[i].dev != ignoreInterface)
                 && Shares(pool, routes[i].dst.value))
  {
    var base := BaseText(pool);
    conflict := false;
    for k := 0 to |routes|
      invariant !conflict
      invariant forall i | 0 <= i < k ::
                  Considered(routes[i], ignoreInterface) ==> !Conflicts(pool, routes[i].dst.value)
    {
      if !Considered(routes[k], ignoreInterface) {
        continue;
      }
      var dst := routes[k].dst.value;
      if RouteContains(dst, base) || RouteContains(pool, BaseText(dst)) {
        conflict := true;
        break;
      }
    }
    if PoolRange(pool).Some? {
      forall i | 0 <= i < |routes| && Considered(routes[i], ignoreInterface)
        ensures Conflicts(pool, routes[i].dst.value) <==> Shares(pool, routes[i].dst.value)
      {
        ConflictsExactly(pool, routes[i].dst.value);
      }
    }
  }
}
