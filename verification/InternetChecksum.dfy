/** The ones' complement checksum of IP, TCP and ICMP (section 2 of RFC 1071). */
module InternetChecksum {
  import opened Common

  /** The plain sum of the big-endian 16-bit words, an odd last byte padded with zero. */
  function WordSum(b: seq<byte>): (s: nat) {
    if |b| == 0 then 0
    else if |b| == 1 then b[0] * 256
    else U16(b, 0) + WordSum(b[2..])
  }

  /** One turn of the folding loop; `>>>` looks at the sum modulo 2^32 only. */
  function Carry(sum: nat): (c: nat)
    ensures sum % TWO32 / 0x1_0000 != 0 ==> c < sum
  {
    assert sum % TWO32 <= sum;
    sum % 0x1_0000 + sum % TWO32 / 0x1_0000
  }

  /** What the folding loop leaves, for a sum of any size. */
  function Fold(sum: nat): (r: nat)
    decreases sum
  {
    if sum % TWO32 / 0x1_0000 == 0 then sum % 0x1_0000 else Fold(Carry(sum))
  }

  /** `checksum(bytes, initial)` */
  function Checksum(b: seq<byte>, initial: nat): nat {
    Fold(initial + WordSum(b))
  }

  lemma WordSumFrom(b: seq<byte>, i: nat)
    requires i < |b|
    ensures i + 1 < |b| ==> WordSum(b[i..]) == U16(b, i) + WordSum(b[i + 2..])
    ensures i + 1 == |b| ==> WordSum(b[i..]) == (b[i] as int) * 256
  {
    assert i + 1 < |b| ==> b[i..][2..] == b[i + 2..];
  }

  method ComputeChecksum(b: seq<byte>, initial: nat) returns (r: nat)
    ensures r == Checksum(b, initial)
  {
    var sum: nat := initial;
    var i := 0;
    while i < |b|
      invariant 0 <= i <= |b| + 1
      invariant initial + WordSum(b) == sum + if i <= |b| then WordSum(b[i..]) else 0
      decreases |b| + 1 - i
    {
      WordSumFrom(b, i);
      sum := sum + (b[i] as int) * 256 + if i + 1 < |b| then b[i + 1] else 0;
      i := i + 2;
    }
    while sum % TWO32 / 0x1_0000 != 0
      invariant Fold(sum) == Fold(initial + WordSum(b))
      decreases sum
    {
      sum := Carry(sum);
    }
    r := sum % 0x1_0000;
  }

  /** The 16-bit value that stands for a sum: congruent modulo 65535, and zero only for a zero sum. */
  ghost predicate Represents(r: int, sum: nat) {
    0 <= r < 0x1_0000 && r % 0xffff == sum % 0xffff && (r == 0 <==> sum == 0)
  }

  lemma RepresentativeUnique(r: int, q: int, sum: nat)
    requires Represents(r, sum) && Represents(q, sum)
    ensures r == q
  {
  }

  /** One turn of the loop, below 2^32. */
  lemma FoldTurn(sum: nat) returns (next: nat)
    requires 0x1_0000 <= sum < TWO32
    ensures next < sum && Fold(sum) == Fold(next)
    ensures 0 < next && next % 0xffff == sum % 0xffff
  {
    var q, r := sum / 0x1_0000, sum % 0x1_0000;
    next := r + q;
    QuotientUnique(sum, TWO32, 0, sum);
    ModShift(q, 0xffff, next);
  }

  lemma {:induction false} FoldRepresents(sum: nat)
    requires sum < TWO32
    ensures Represents(Fold(sum), sum)
    decreases sum
  {
    if sum < 0x1_0000 {
      QuotientUnique(sum, TWO32, 0, sum);
    } else {
      var next := FoldTurn(sum);
      FoldRepresents(next);
    }
  }

  lemma LowWords(sum: nat)
    ensures sum % TWO32 % TWO32 == sum % TWO32
    ensures sum % TWO32 % 0x1_0000 == sum % 0x1_0000
  {
    var hi, lo := sum / TWO32, sum % TWO32;
    ModShift(hi * 0x1_0000, 0x1_0000, lo);
    QuotientUnique(lo, TWO32, 0, lo);
  }

  lemma FoldIgnoresHighWord(sum: nat)
    ensures Fold(sum) == Fold(sum % TWO32)
  {
    LowWords(sum);
    assert Carry(sum) == Carry(sum % TWO32);
  }

  /** For a sum of any size the fold keeps the residue exactly when the multiple of 2^32 that `>>>` drops is itself a
      multiple of 65535; and it represents the sum exactly when, besides, not everything but that multiple is zero. */
  lemma FoldExactCondition(sum: nat)
    ensures Fold(sum) % 0xffff == sum % 0xffff <==> sum / TWO32 % 0xffff == 0
    ensures Represents(Fold(sum), sum) <==> sum / TWO32 % 0xffff == 0 && (sum % TWO32 == 0 ==> sum == 0)
  {
    FoldIgnoresHighWord(sum);
    FoldRepresents(sum % TWO32);
    var hi, lo := sum / TWO32, sum % TWO32;
    assert sum == hi * 0x1_0001 * 0xffff + (hi + lo);
    ModShift(hi * 0x1_0001, 0xffff, hi + lo);
    AddendDropped(hi, lo);
  }

  /** Both halves of the condition are needed: here the residue survives, yet the fold of a non-zero sum is zero. */
  lemma DroppedSumLooksZero()
    ensures var sum := 0xffff * TWO32; Fold(sum) % 0xffff == sum % 0xffff && !Represents(Fold(sum), sum)
  {
    var sum := 0xffff * TWO32;
    QuotientUnique(sum, TWO32, 0xffff, 0);
    FoldExactCondition(sum);
  }

  lemma AddendDropped(x: nat, y: nat)
    ensures (x + y) % 0xffff == y % 0xffff <==> x % 0xffff == 0
  {
  }

  lemma {:induction false} WordSumBound(b: seq<byte>)
    ensures WordSum(b) <= (|b| + 1) / 2 * 0xffff
  {
    if |b| > 1 {
      WordSumBound(b[2..]);
    }
  }

  /** Every byte string of at most 128 KiB, with any 16-bit start: the loop ends with the representative of the word
      sum. */
  lemma ChecksumRepresents(b: seq<byte>, initial: nat)
    requires |b| <= 0x2_0000 && initial < 0x1_0000
    ensures Represents(Checksum(b, initial), initial + WordSum(b))
  {
    WordSumBound(b);
    FoldRepresents(initial + WordSum(b));
  }

  lemma {:induction false} WordSumOfOnes(n: nat)
    ensures WordSum(seq(2 * n, _ => 255)) == n * 0xffff
  {
    var b: seq<byte> := seq(2 * n, _ => 255);
    if n > 0 {
      WordSumOfOnes(n - 1);
      assert b[2..] == seq(2 * (n - 1), _ => 255);
    }
  }

  /** The 128 KiB bound is needed: four bytes more, all of them 255, and the result stands for a different sum. */
  lemma LongInputLosesCarry()
    ensures var b: seq<byte> := seq(0x2_0004, _ => 255);
            Checksum(b, 0) % 0xffff != WordSum(b) % 0xffff
  {
    WordSumOfOnes(0x1_0002);
    FoldExactCondition(0x1_0002 * 0xffff);
    assert 0x1_0002 * 0xffff / TWO32 == 1;
  }

  lemma {:induction false} WordSumConcat(a: seq<byte>, b: seq<byte>)
    requires |a| % 2 == 0
    ensures WordSum(a + b) == WordSum(a) + WordSum(b)
  {
    if |a| == 0 {
      assert a + b == b;
    } else {
      WordSumConcat(a[2..], b);
      assert (a + b)[2..] == a[2..] + b;
    }
  }

  lemma SameResidueSum(c: nat, s: nat, t: nat)
    requires c % 0xffff == s % 0xffff
    ensures (c + t) % 0xffff == (s + t) % 0xffff
  {
    assert c + t == (c / 0xffff) * 0xffff + (c % 0xffff + t);
    assert s + t == (s / 0xffff) * 0xffff + (s % 0xffff + t);
    ModShift(c / 0xffff, 0xffff, c % 0xffff + t);
    ModShift(s / 0xffff, 0xffff, s % 0xffff + t);
  }

  /** Starting from the checksum of an even-length prefix is summing the concatenation. */
  lemma ChainingIsConcatenation(a: seq<byte>, b: seq<byte>)
    requires |a| % 2 == 0 && |a| + |b| <= 0x2_0000
    ensures Checksum(b, Checksum(a, 0)) == Checksum(a + b, 0)
  {
    var c := Checksum(a, 0);
    ChecksumRepresents(a, 0);
    ChecksumRepresents(b, c);
    ChecksumRepresents(a + b, 0);
    WordSumConcat(a, b);
    SameResidueSum(c, WordSum(a), WordSum(b));
    RepresentativeUnique(Checksum(b, Checksum(a, 0)), Checksum(a + b, 0), WordSum(a + b));
  }

  /** The word at an even offset; the last one of an odd-length string is padded with zero. */
  function WordAt(b: seq<byte>, i: nat): (v: nat)
    requires i % 2 == 0 && i < |b|
    ensures v < 0x1_0000
  {
    if i + 1 < |b| then U16(b, i) else (b[i] as int) * 256
  }

  /** `v` fits the place of the word at `i`: a padded last word has one byte. */
  predicate FitsAt(b: seq<byte>, i: nat, v: nat) {
    i % 2 == 0 && i < |b| && v < 0x1_0000 && (i + 1 == |b| ==> v % 256 == 0)
  }

  /** The word at an even offset replaced by `v`. */
  function PutWord(b: seq<byte>, i: nat, v: nat): (r: seq<byte>)
    requires FitsAt(b, i, v)
    ensures |r| == |b| && WordAt(r, i) == v
  {
    if i + 1 < |b| then b[i := v / 256][i + 1 := v % 256] else b[i := v / 256]
  }

  lemma {:induction false} WordSumPut(b: seq<byte>, i: nat, v: nat)
    requires FitsAt(b, i, v)
    ensures WordSum(PutWord(b, i, v)) == WordSum(b) - WordAt(b, i) + v
  {
    if i == 0 {
      assert |b| > 1 ==> PutWord(b, i, v)[2..] == b[2..];
    } else {
      WordSumPut(b[2..], i - 2, v);
      assert PutWord(b, i, v)[2..] == PutWord(b[2..], i - 2, v);
    }
  }

  lemma ReplacedAddend(s: nat, u: nat, v: nat)
    requires s % 0xffff == 0
    ensures (s - u + v) % 0xffff == 0 <==> v % 0xffff == u % 0xffff
  {
    ModShift(-(s / 0xffff), 0xffff, s - u + v);
    ModShift(u / 0xffff - v / 0xffff, 0xffff, v - u);
  }

  lemma ComplementAddend(s: nat, c: nat)
    requires c <= 0xffff && c % 0xffff == s % 0xffff
    ensures (s + (0xffff - c)) % 0xffff == 0
  {
    SameResidueSum(c, s, 0xffff - c);
  }

  lemma ValidatesWhenMultiple(b: seq<byte>)
    requires |b| <= 0x2_0000
    ensures Checksum(b, 0) < 0x1_0000
    ensures Checksum(b, 0) == 0xffff <==> WordSum(b) % 0xffff == 0 && WordSum(b) != 0
  {
    ChecksumRepresents(b, 0);
  }

  /** Storing the complement in a zeroed checksum field always makes the data validate. */
  lemma ComplementValidates(b: seq<byte>, i: nat)
    requires i % 2 == 0 && i + 1 < |b| <= 0x2_0000 && U16(b, i) == 0
    ensures Checksum(b, 0) < 0x1_0000
    ensures Checksum(PutWord(b, i, 0xffff - Checksum(b, 0)), 0) == 0xffff
  {
    ChecksumRepresents(b, 0);
    var c := Checksum(b, 0);
    WordSumPut(b, i, 0xffff - c);
    ComplementAddend(WordSum(b), c);
    ValidatesWhenMultiple(PutWord(b, i, 0xffff - c));
  }

  /** Overwriting one word of validating data, the padded last one included, is noticed exactly when the word changes
      modulo 65535 (or everything becomes zero). */
  lemma OverwriteDetected(b: seq<byte>, i: nat, v: nat)
    requires FitsAt(b, i, v) && |b| <= 0x2_0000
    requires Checksum(b, 0) == 0xffff
    ensures Checksum(PutWord(b, i, v), 0) == 0xffff <==>
            v % 0xffff == WordAt(b, i) % 0xffff && WordSum(PutWord(b, i, v)) != 0
  {
    ValidatesWhenMultiple(b);
    WordSumPut(b, i, v);
    ReplacedAddend(WordSum(b), WordAt(b, i), v);
    ValidatesWhenMultiple(PutWord(b, i, v));
  }

  lemma NearIsNotCongruent(u: nat, v: nat)
    requires u < v < u + 0xffff
    ensures u % 0xffff != v % 0xffff
  {
    var q, sum := u / 0xffff, u % 0xffff + (v - u);
    if sum < 0xffff {
      QuotientUnique(v, 0xffff, q, sum);
    } else {
      QuotientUnique(v, 0xffff, q + 1, sum - 0xffff);
    }
  }

  /** Two words with the same high or the same low byte are congruent only if they are equal. */
  lemma OneByteApart(h: byte, l: byte, g: byte, k: byte)
    requires (h == g) != (l == k)
    ensures ((h as int) * 256 + l) % 0xffff != ((g as int) * 256 + k) % 0xffff
  {
    var u, v: nat := (h as int) * 256 + l, (g as int) * 256 + k;
    if u < v { NearIsNotCongruent(u, v); } else { NearIsNotCongruent(v, u); }
  }

  /** A single changed byte is always noticed, wherever it is and whatever it becomes. */
  lemma ChangedByteDetected(b: seq<byte>, k: nat, x: byte)
    requires k < |b| <= 0x2_0000 && x != b[k]
    requires Checksum(b, 0) == 0xffff
    ensures Checksum(b[k := x], 0) != 0xffff
  {
    var first := k % 2 == 0;
    var i: nat := if first then k else k - 1;
    var low: byte := if i + 1 < |b| then b[i + 1] else 0;
    var h: byte, l: byte := if first then x else b[i], if first then low else x;
    var v: nat := (h as int) * 256 + l;
    assert WordAt(b, i) == (b[i] as int) * 256 + low;
    assert v / 256 == h && v % 256 == l;
    assert PutWord(b, i, v) == b[k := x];
    OneByteApart(h, l, b[i], low);
    OverwriteDetected(b, i, v);
  }
}
