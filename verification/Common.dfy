/** Small shared vocabulary: optional values, bytes, and big-endian fields. */
module Common {

  datatype Option<+T> = None | Some(value: T)

  type byte = x: int | 0 <= x < 256

  const TWO32: int := 0x1_0000_0000

  type u32 = x: int | 0 <= x < TWO32

  /** The two traffic directions, seen from the machine that runs the policy. */
  datatype Direction = In | Out {
    function Opposite(): Direction {
      if In? then Out else In
    }
  }

  /** `readUInt16BE` */
  function U16(b: seq<byte>, i: nat): (v: nat)
    requires i + 1 < |b|
    ensures v < 0x1_0000
  {
    (b[i] as int) * 256 + b[i + 1]
  }

  /** `readUInt32BE` */
  function U32(b: seq<byte>, i: nat): (v: u32)
    requires i + 3 < |b|
  {
    (U16(b, i) as int) * 0x1_0000 + U16(b, i + 2)
  }

  /** `>>> 0` applied to a value that left the 32-bit range. */
  function Wrap32(x: int): (v: u32) {
    x % TWO32
  }

  function Pow2(k: nat): (p: nat)
    ensures p > 0
  {
    if k == 0 then 1 else 2 * Pow2(k - 1)
  }

  lemma {:induction false} Pow2Sum(a: nat, b: nat)
    ensures Pow2(a + b) == Pow2(a) * Pow2(b)
  {
    if a > 0 {
      Pow2Sum(a - 1, b);
      DoubledProduct(Pow2(a - 1), Pow2(b));
    }
  }

  lemma DoubledProduct(x: int, y: int)
    ensures 2 * (x * y) == (2 * x) * y
  {
  }

  /** A subset of a finite set is no larger. */
  lemma {:induction false} SubsetCardinality<T>(a: set<T>, b: set<T>)
    requires a <= b
    ensures |a| <= |b|
    ensures |a| == |b| ==> a == b
  {
    if a != {} {
      var x :| x in a;
      SubsetCardinality(a - {x}, b - {x});
    }
  }

  /** Adding a multiple of the modulus changes nothing. */
  lemma ModShift(k: int, d: int, x: int)
    requires d > 0
    ensures (k * d + x) % d == x % d
  {
    var q, r := x / d, x % d;
    assert k * d + x == (k + q) * d + r;
    QuotientUnique(k * d + x, d, k + q, r);
  }

  lemma MulMonotone(a: int, b: int, c: int)
    requires a <= b && c >= 0
    ensures a * c <= b * c
  {
    assert (b - a) * c >= 0;
  }

  lemma QuotientUnique(n: int, d: int, q: int, r: int)
    requires d > 0 && n == q * d + r && 0 <= r < d
    ensures n / d == q && n % d == r
  {
    var q' := n / d;
    if q' > q {
      MulMonotone(q + 1, q', d);
    } else if q' < q {
      MulMonotone(q' + 1, q, d);
    }
  }
}
