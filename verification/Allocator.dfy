/** Which address a new device gets. */
module Allocator {
  import opened Common
  import opened Addresses
  import opened ReceiverStore

  /** `m` is the first number from `n` to `last` whose text is free. */
  ghost predicate IsLowest(text: int -> string, n: int, last: int, taken: set<string>, m: int) {
    n <= m <= last && text(m) !in taken && forall l | n <= l < m :: text(l) in taken
  }

  /** The scan finds the lowest free number, and fails exactly when there is none. */
  lemma {:induction false} FirstFreeIsLowest(text: int -> string, n: int, last: int, taken: set<string>)
      returns (m: int)
    ensures FirstFree(text, n, last, taken).None? <==> forall l | n <= l <= last :: text(l) in taken
    ensures FirstFree(text, n, last, taken).Some? ==>
              FirstFree(text, n, last, taken) == Some(text(m)) && IsLowest(text, n, last, taken, m)
    decreases last - n
  {
    m := n;
    if n <= last && text(n) in taken {
      m := FirstFreeIsLowest(text, n + 1, last, taken);
    }
  }

  ghost predicate InjectiveOn(text: int -> string, n: int, last: int) {
    forall a, b | n <= a <= last && n <= b <= last && text(a) == text(b) :: a == b
  }

  ghost function Texts(text: int -> string, n: int, count: nat): set<string> {
    set l | n <= l < n + count :: text(l)
  }

  lemma OneMoreText(text: int -> string, n: int, m: nat)
    requires InjectiveOn(text, n, n + m)
    ensures text(n + m) !in Texts(text, n, m)
    ensures Texts(text, n, m + 1) == Texts(text, n, m) + {text(n + m)}
  {
    var last := n + m;
    forall x ensures x in Texts(text, n, m + 1) <==> x in Texts(text, n, m) || x == text(last) {
      if x in Texts(text, n, m + 1) {
        var l :| n <= l < n + (m + 1) && text(l) == x;
        assert l < last ==> text(l) in Texts(text, n, m);
      }
    }
  }

  lemma {:induction false} TextsAreDistinct(text: int -> string, n: int, count: nat)
    requires InjectiveOn(text, n, n + count - 1)
    ensures |Texts(text, n, count)| == count
  {
    if count > 0 {
      var m: nat := count - 1;
      TextsAreDistinct(text, n, m);
      OneMoreText(text, n, m);
    }
  }

  /** Pigeonhole: among more candidates than taken texts the scan succeeds, within the first |taken| + 1. */
  lemma ScanIsShort(text: int -> string, n: int, last: int, taken: set<string>) returns (m: int)
    requires InjectiveOn(text, n, last) && last - n + 1 > |taken|
    ensures m <= n + |taken| && IsLowest(text, n, last, taken, m) && FirstFree(text, n, last, taken) == Some(text(m))
  {
    m := FirstFreeIsLowest(text, n, last, taken);
    if forall l | n <= l <= n + |taken| :: text(l) in taken {
      TextsAreDistinct(text, n, |taken| + 1);
      assert Texts(text, n, |taken| + 1) <= taken;
      SubsetCardinality(Texts(text, n, |taken| + 1), taken);
    }
  }

  lemma AddressTextInjective(n: int, last: int)
    requires 0 <= n && last < TWO32
    ensures InjectiveOn(AddressText, n, last)
  {
    forall a, b | n <= a <= last && n <= b <= last && AddressText(a) == AddressText(b) ensures a == b {
      AddressInjective(a, b);
    }
  }

  lemma {:induction false} AddressSetSize(d: seq<Device>)
    ensures |set i | 0 <= i < |d| :: d[i].address| <= |d|
  {
    var all := set i | 0 <= i < |d| :: d[i].address;
    if d == [] {
      assert all == {};
    } else {
      var front := d[..|d| - 1];
      AddressSetSize(front);
      var some := set i | 0 <= i < |front| :: front[i].address;
      assert all == some + {d[|d| - 1].address} by {
        forall a | a in all ensures a in some + {d[|d| - 1].address} {
          var i :| 0 <= i < |d| && d[i].address == a;
          if i < |front| { assert front[i].address == a; }
        }
        forall a | a in some ensures a in all {
          var i :| 0 <= i < |front| && front[i].address == a;
          assert d[i].address == a;
        }
      }
    }
  }

  lemma TakenIsSmall(s: State, exclude: Option<string>)
    requires |s.devices| < MAX_DEVICES
    ensures |Taken(s, exclude)| <= 17
  {
    AddressSetSize(s.devices);
    var devices := set i | 0 <= i < |s.devices| :: s.devices[i].address;
    var own := {s.identity.receiverAddress} + devices;
    assert |own| <= 16;
    assert exclude.Some? && exclude.value != "" ==> Taken(s, exclude) == own + {exclude.value};
    assert !(exclude.Some? && exclude.value != "") ==> Taken(s, exclude) == own;
  }

  /** With a pool of prefix /16 to /27, that is 30 usable addresses or more, a store that still has room for a device
      never runs out of addresses, and looks at no more than 18 candidates. */
  lemma WidePoolNeverRunsOut(s: State, exclude: Option<string>) returns (m: int)
    requires |s.devices| < MAX_DEVICES && PoolRange(s.identity.pool).Some?
    requires var r := PoolRange(s.identity.pool).value; r.last - r.first + 1 >= 30
    ensures var r := PoolRange(s.identity.pool).value;
            && r.first <= m < r.first + 18
            && FirstFree(AddressText, r.first, r.last, Taken(s, exclude)) == Some(AddressText(m))
  {
    TakenIsSmall(s, exclude);
    var r := PoolRange(s.identity.pool).value;
    AddressTextInjective(r.first, r.last);
    m := ScanIsShort(AddressText, r.first, r.last, Taken(s, exclude));
  }

  lemma PrefixBoundsPoolSize(pool: string) returns (base: u32, bits: nat)
    requires PoolRange(pool).Some?
    ensures 16 <= bits <= 30 && PoolRange(pool) == Some(Usable(base, Pow2(32 - bits)))
    ensures var r := PoolRange(pool).value; bits <= 27 <==> r.last - r.first + 1 >= 30
  {
    base, bits := PoolBlock(pool);
    PrefixBoundsSize(bits);
    UsableCount(base, Pow2(32 - bits));
  }

  lemma PrefixBoundsSize(bits: nat)
    requires 16 <= bits <= 30
    ensures bits <= 27 <==> Pow2(32 - bits) >= 32
  {
    Pow2Facts();
    if bits <= 27 { Pow2Monotone(5, 32 - bits); } else { Pow2Monotone(32 - bits, 4); assert Pow2(4) == 16; }
  }

  lemma UsableCount(base: int, size: int)
    ensures Usable(base, size).last - Usable(base, size).first + 1 == size - 2
  {
  }

  /** The address text `a` is free for a new device. */
  ghost predicate Available(s: State, exclude: Option<string>, a: string) {
    a != s.identity.receiverAddress && exclude != Some(a)
      && forall i | 0 <= i < |s.devices| :: s.devices[i].address != a
  }

  lemma TakenIsUnavailable(s: State, exclude: Option<string>, a: string)
    requires exclude != Some("")
    ensures a in Taken(s, exclude) <==> !Available(s, exclude, a)
  {
  }

  /** A new device gets the lowest pool address that is neither the receiver's, nor a device's, nor the excluded one;
      enrollment reports an exhausted pool exactly when there is none. */
  lemma AllocationIsLowest(s: State, key: string, exclude: Option<string>) returns (m: int)
    requires PoolRange(s.identity.pool).Some? && FindDevice(s.devices, key).None? && |s.devices| < MAX_DEVICES
    requires exclude != Some("")
    ensures var r, o := PoolRange(s.identity.pool).value, PlanDevice(s, key, exclude);
            && (o == Failed(Rejected(Pool))
                <==> forall l | r.first <= l <= r.last :: !Available(s, exclude, AddressText(l)))
            && (o.Enrolled? ==>
                  && r.first <= m <= r.last && o.device == Device(key, AddressText(m), AllPorts)
                  && Available(s, exclude, AddressText(m))
                  && forall l | r.first <= l < m :: !Available(s, exclude, AddressText(l)))
  {
    var r := PoolRange(s.identity.pool).value;
    m := FirstFreeIsLowest(AddressText, r.first, r.last, Taken(s, exclude));
    forall l: int ensures AddressText(l) in Taken(s, exclude) <==> !Available(s, exclude, AddressText(l)) {
      TakenIsUnavailable(s, exclude, AddressText(l));
    }
  }
}
