/** What one operation of the receiver's store wants to save. */
module ReceiverPlans {
  import opened Common
  import opened Addresses
  import opened ReceiverStore
  import opened Allocator

  // ---- The list functions of the store ----

  lemma {:induction false} LiveOnlyFacts(v: seq<Pending>, now: int)
    ensures |LiveOnly(v, now)| <= |v|
    ensures forall p :: p in LiveOnly(v, now) <==> p in v && Live(p, now)
    ensures DistinctInvitations(v) ==> DistinctInvitations(LiveOnly(v, now))
  {
    if v != [] {
      LiveOnlyFacts(v[1..], now);
      assert v == [v[0]] + v[1..];
      if DistinctInvitations(v) {
        assert DistinctInvitations(v[1..]);
        var rest := LiveOnly(v[1..], now);
        forall j | 0 <= j < |rest| ensures rest[j].digest != v[0].digest {
          assert rest[j] in v[1..];
        }
      }
    }
  }

  lemma {:induction false} FindInvitationFacts(v: seq<Pending>, hash: string, now: int)
    ensures var r := FindInvitation(v, hash, now);
            if r.Some? then r.value < |v| && v[r.value].digest == hash && Live(v[r.value], now)
            else forall i | 0 <= i < |v| :: !(v[i].digest == hash && Live(v[i], now))
  {
    if v != [] {
      FindInvitationFacts(v[1..], hash, now);
    }
  }

  lemma {:induction false} FindDeviceFacts(d: seq<Device>, key: string)
    ensures var r := FindDevice(d, key);
            if r.Some? then r.value in d && r.value.publicKey == key
            else forall i | 0 <= i < |d| :: d[i].publicKey != key
  {
    if d != [] {
      FindDeviceFacts(d[1..], key);
    }
  }

  lemma {:induction false} WithoutDeviceFacts(d: seq<Device>, key: string)
    ensures |WithoutDevice(d, key)| <= |d|
    ensures forall x :: x in WithoutDevice(d, key) <==> x in d && x.publicKey != key
  {
    if d != [] {
      WithoutDeviceFacts(d[1..], key);
      assert d == [d[0]] + d[1..];
    }
  }

  lemma {:induction false} WithoutDeviceDistinct(d: seq<Device>, key: string)
    requires DistinctDevices(d)
    ensures DistinctDevices(WithoutDevice(d, key))
  {
    if d != [] {
      var rest := WithoutDevice(d[1..], key);
      WithoutDeviceDistinct(d[1..], key);
      WithoutDeviceFacts(d[1..], key);
      forall j | 0 <= j < |rest| ensures rest[j].publicKey != d[0].publicKey && rest[j].address != d[0].address {
        assert rest[j] in d[1..];
      }
    }
  }

  // ---- Every planned state is valid ----

  ghost predicate FreshDigest(s: State, hash: string) {
    IsKey(hash) && forall i | 0 <= i < |s.invitations| :: s.invitations[i].digest != hash
  }

  lemma LiveOnlyValid(v: seq<Pending>, now: int, identity: Identity, range: Range)
    requires ValidInvitations(v, identity, range)
    ensures ValidInvitations(LiveOnly(v, now), identity, range)
  {
    LiveOnlyFacts(v, now);
    var w := LiveOnly(v, now);
    forall i | 0 <= i < |w| ensures ValidPending(w[i], identity, range) {
      assert w[i] in v;
    }
  }

  lemma ValidInvitationsSnoc(v: seq<Pending>, p: Pending, identity: Identity, range: Range)
    requires ValidInvitations(v, identity, range) && ValidPending(p, identity, range)
    requires forall i | 0 <= i < |v| :: v[i].digest != p.digest
    ensures ValidInvitations(v + [p], identity, range)
  {
    var w := v + [p];
    forall i | 0 <= i < |w| ensures ValidPending(w[i], identity, range) {
      assert i < |v| ==> w[i] == v[i];
    }
  }

  lemma LiveOnlyLacks(v: seq<Pending>, now: int, hash: string)
    requires forall i | 0 <= i < |v| :: v[i].digest != hash
    ensures forall i | 0 <= i < |LiveOnly(v, now)| :: LiveOnly(v, now)[i].digest != hash
  {
    LiveOnlyFacts(v, now);
    forall i | 0 <= i < |LiveOnly(v, now)| ensures LiveOnly(v, now)[i].digest != hash {
      assert LiveOnly(v, now)[i] in v;
    }
  }

  lemma NewPendingIsValid(identity: Identity, range: Range, hash: string, exclude: Option<string>, now: Instant)
    requires IsKey(hash) && (exclude.Some? ==> ValidExclusion(exclude.value, identity.receiverAddress, range))
    ensures ValidPending(Pending(hash, now, now + TTL, exclude), identity, range)
  {
  }

  lemma InvitationKeepsValid(digest: string -> string, s: State, exclude: Option<string>, secret: string, now: Instant)
    requires WellFormed(s) && FreshDigest(s, digest(secret))
    ensures var p := PlanInvitation(digest, s, exclude, secret, now);
              p.Save? ==> WellFormed(p.next) && p.next.identity == s.identity
  {
    if PlanInvitation(digest, s, exclude, secret, now).Save? {
      var range := PoolRange(s.identity.pool).value;
      LiveOnlyValid(s.invitations, now, s.identity, range);
      LiveOnlyLacks(s.invitations, now, digest(secret));
      NewPendingIsValid(s.identity, range, digest(secret), exclude, now);
      ValidInvitationsSnoc(LiveOnly(s.invitations, now), Pending(digest(secret), now, now + TTL, exclude), s.identity,
                           range);
    }
  }

  lemma ValidDevicesSnoc(d: seq<Device>, x: Device, identity: Identity, range: Range)
    requires ValidDevices(d, identity, range) && ValidDevice(x, identity, range)
    requires forall i | 0 <= i < |d| :: d[i].publicKey != x.publicKey && d[i].address != x.address
    ensures ValidDevices(d + [x], identity, range)
  {
    var e := d + [x];
    forall i | 0 <= i < |e| ensures ValidDevice(e[i], identity, range) {
      assert i < |d| ==> e[i] == d[i];
    }
  }

  lemma AllocatedAddressIsValid(pool: string, m: int)
    requires PoolRange(pool).Some? && PoolRange(pool).value.first <= m <= PoolRange(pool).value.last
    ensures Ipv4(AddressText(m)) == Some(m)
  {
    PoolNumber(pool, m);
  }

  lemma NewDeviceKeepsValid(s: State, key: string, exclude: Option<string>)
    requires WellFormed(s) && IsKey(key) && key != s.identity.receiverKey
    requires FindDevice(s.devices, key).None? && exclude != Some("")
    requires PlanDevice(s, key, exclude).Enrolled?
    ensures var devices := s.devices + [PlanDevice(s, key, exclude).device];
            |devices| <= MAX_DEVICES && ValidDevices(devices, s.identity, PoolRange(s.identity.pool).value)
    ensures PlanDevice(s, key, exclude).device.publicKey == key
  {
    var range := PoolRange(s.identity.pool).value;
    FindDeviceFacts(s.devices, key);
    var m := AllocationIsLowest(s, key, exclude);
    AllocatedAddressIsValid(s.identity.pool, m);
    var d := PlanDevice(s, key, exclude).device;
    ValidDevicesSnoc(s.devices, d, s.identity, range);
  }

  lemma ExclusionNotEmpty(s: State, i: nat)
    requires WellFormed(s) && i < |s.invitations|
    ensures s.invitations[i].excludeAddress != Some("")
  {
    assert ValidPending(s.invitations[i], s.identity, PoolRange(s.identity.pool).value);
    assert Ipv4("").None?;
  }

  /** The invitations that remain after spending the `i`-th. */
  function Spent(v: seq<Pending>, i: nat, now: int): seq<Pending>
    requires i < |v|
  {
    LiveOnly(v[..i] + v[i + 1..], now)
  }

  lemma SpentIsSubset(v: seq<Pending>, i: nat, now: int)
    requires i < |v|
    ensures forall p | p in Spent(v, i, now) :: p in v
  {
    LiveOnlyFacts(v[..i] + v[i + 1..], now);
  }

  lemma SpentIsGone(v: seq<Pending>, i: nat, now: int)
    requires i < |v| && DistinctInvitations(v)
    ensures forall p | p in Spent(v, i, now) :: p.digest != v[i].digest
  {
    var w := v[..i] + v[i + 1..];
    LiveOnlyFacts(w, now);
    forall a | 0 <= a < |w| ensures w[a].digest != v[i].digest {
      assert w[a] == v[if a < i then a else a + 1];
    }
  }

  lemma SpentIsValid(v: seq<Pending>, i: nat, now: int, identity: Identity, range: Range)
    requires i < |v| && ValidInvitations(v, identity, range)
    ensures ValidInvitations(Spent(v, i, now), identity, range) && |Spent(v, i, now)| < |v|
  {
    var w := v[..i] + v[i + 1..];
    forall a, b | 0 <= a < b < |w| ensures w[a].digest != w[b].digest {
      assert w[a] == v[if a < i then a else a + 1] && w[b] == v[if b < i then b else b + 1];
    }
    forall a | 0 <= a < |w| ensures ValidPending(w[a], identity, range) {
      assert w[a] == v[if a < i then a else a + 1];
    }
    LiveOnlyValid(w, now, identity, range);
    LiveOnlyFacts(w, now);
  }

  lemma PlannedDevice(s: State, key: string, exclude: Option<string>)
    requires PlanDevice(s, key, exclude).Enrolled?
    ensures PlanDevice(s, key, exclude).device.publicKey == key
    ensures FindDevice(s.devices, key).Some? ==> PlanDevice(s, key, exclude).device in s.devices
  {
    FindDeviceFacts(s.devices, key);
  }

  /** What an enrollment that saves looks like: which invitation it spends and which device it leaves behind. */
  lemma EnrollmentFacts(digest: string -> string, s: State, key: string, secret: string, now: Instant) returns (i: nat)
    requires PlanEnrollment(digest, s, key, secret, now).Save?
    ensures var p := PlanEnrollment(digest, s, key, secret, now);
            && i < |s.invitations| && s.invitations[i] in s.invitations
            && FindInvitation(s.invitations, digest(secret), now) == Some(i)
            && s.invitations[i].digest == digest(secret) && Live(s.invitations[i], now)
            && p.next.identity == s.identity && p.next.invitations == Spent(s.invitations, i, now)
            && p.afterwards.Enrolled? && p.afterwards.device in p.next.devices && p.afterwards.device.publicKey == key
            && (FindDevice(s.devices, key).Some? ==> p.next.devices == s.devices)
            && (FindDevice(s.devices, key).None? ==> p.next.devices == s.devices + [p.afterwards.device])
  {
    FindInvitationFacts(s.invitations, digest(secret), now);
    i := FindInvitation(s.invitations, digest(secret), now).value;
    PlannedDevice(s, key, s.invitations[i].excludeAddress);
  }

  lemma WithGrantIsValid(d: seq<Device>, key: string, g: PortGrant, identity: Identity, range: Range)
    requires ValidDevices(d, identity, range) && ValidGrant(g)
    ensures ValidDevices(WithGrant(d, key, g), identity, range)
  {
    var e := WithGrant(d, key, g);
    forall i | 0 <= i < |e| ensures ValidDevice(e[i], identity, range) {
      assert ValidDevice(d[i], identity, range);
    }
  }

  lemma WithoutDeviceIsValid(d: seq<Device>, key: string, identity: Identity, range: Range)
    requires ValidDevices(d, identity, range)
    ensures ValidDevices(WithoutDevice(d, key), identity, range)
  {
    WithoutDeviceFacts(d, key);
    WithoutDeviceDistinct(d, key);
    var e := WithoutDevice(d, key);
    forall i | 0 <= i < |e| ensures ValidDevice(e[i], identity, range) {
      assert e[i] in d;
    }
  }

  /** A device can have a place: it has one already, at an address the invitation does not exclude, or there is room for
      it. */
  ghost predicate HasPlace(s: State, key: string, exclude: Option<string>)
    requires PoolRange(s.identity.pool).Some?
  {
    var known, range := FindDevice(s.devices, key), PoolRange(s.identity.pool).value;
    if known.Some? then Some(known.value.address) != exclude
    else |s.devices| < 16 && exists l ::
           range.first <= l <= range.last && Available(s, exclude, AddressText(l))
  }

  lemma PlacedExactly(s: State, key: string, exclude: Option<string>)
    requires PoolRange(s.identity.pool).Some? && exclude != Some("")
    ensures PlanDevice(s, key, exclude).Enrolled? <==> HasPlace(s, key, exclude)
  {
    if FindDevice(s.devices, key).None? && |s.devices| < MAX_DEVICES {
      var m := AllocationIsLowest(s, key, exclude);
    }
  }

  /** The invitation that the secret opens at this time. */
  ghost predicate Opens(digest: string -> string, s: State, i: nat, secret: string, now: int)
    requires i < |s.invitations|
  {
    s.invitations[i].digest == digest(secret) && Live(s.invitations[i], now)
  }

  lemma OpensAtMostOne(digest: string -> string, s: State, secret: string, now: int)
    requires DistinctInvitations(s.invitations)
    ensures forall i: nat | i < |s.invitations| ::
              Opens(digest, s, i, secret, now) <==> FindInvitation(s.invitations, digest(secret), now) == Some(i)
  {
    FindInvitationFacts(s.invitations, digest(secret), now);
    var found := FindInvitation(s.invitations, digest(secret), now);
    forall i: nat | i < |s.invitations| ensures Opens(digest, s, i, secret, now) <==> found == Some(i) {
      if found.Some? && found.value != i {
        assert s.invitations[i].digest != s.invitations[found.value].digest;
      }
    }
  }

  lemma GrantedWhenFound(digest: string -> string, s: State, key: string, secret: string, now: Instant)
    requires WellFormed(s)
    ensures PlanEnrollment(digest, s, key, secret, now).Save? <==>
              && IsKey(key) && key != s.identity.receiverKey && IsKey(secret)
              && var found := FindInvitation(s.invitations, digest(secret), now);
                 found.Some? && found.value < |s.invitations|
                   && HasPlace(s, key, s.invitations[found.value].excludeAddress)
  {
    var found := FindInvitation(s.invitations, digest(secret), now);
    if found.Some? && found.value < |s.invitations| {
      ExclusionNotEmpty(s, found.value);
      PlacedExactly(s, key, s.invitations[found.value].excludeAddress);
    }
  }

  /** When an enrollment is granted: exactly for a well-formed foreign key with a secret that opens a live invitation
      whose exclusion leaves the device a place. */
  lemma EnrollmentGrantedExactly(digest: string -> string, s: State, key: string, secret: string, now: Instant)
    requires WellFormed(s)
    ensures PlanEnrollment(digest, s, key, secret, now).Save? <==>
              && IsKey(key) && key != s.identity.receiverKey && IsKey(secret)
              && exists i: nat :: i < |s.invitations| && Opens(digest, s, i, secret, now)
                                  && HasPlace(s, key, s.invitations[i].excludeAddress)
  {
    GrantedWhenFound(digest, s, key, secret, now);
    FindInvitationFacts(s.invitations, digest(secret), now);
    OpensAtMostOne(digest, s, secret, now);
    var found := FindInvitation(s.invitations, digest(secret), now);
    if found.Some? {
      assert Opens(digest, s, found.value, secret, now);
    }
  }

  lemma EnrollmentKeepsValid(digest: string -> string, s: State, key: string, secret: string, now: Instant)
    requires WellFormed(s)
    ensures var p := PlanEnrollment(digest, s, key, secret, now);
            p.Save? ==> WellFormed(p.next) && p.next.identity == s.identity
  {
    if PlanEnrollment(digest, s, key, secret, now).Save? {
      var i := EnrollmentFacts(digest, s, key, secret, now);
      SpentIsValid(s.invitations, i, now, s.identity, PoolRange(s.identity.pool).value);
      if FindDevice(s.devices, key).None? {
        ExclusionNotEmpty(s, i);
        NewDeviceKeepsValid(s, key, s.invitations[i].excludeAddress);
      }
    }
  }

  lemma OtherDevicesKeepValid(s: State, devices: seq<Device>)
    requires WellFormed(s) && |devices| <= |s.devices|
    requires ValidDevices(devices, s.identity, PoolRange(s.identity.pool).value)
    ensures WellFormed(s.(devices := devices))
  {
  }

  lemma GrantKeepsValid(s: State, key: string, ports: PortGrant)
    requires WellFormed(s)
    ensures var p := PlanGrant(s, key, ports); p.Save? ==> WellFormed(p.next) && p.next.identity == s.identity
  {
    if ValidGrant(ports) {
      WithGrantIsValid(s.devices, key, ports, s.identity, PoolRange(s.identity.pool).value);
      OtherDevicesKeepValid(s, WithGrant(s.devices, key, ports));
    }
  }

  lemma RevocationKeepsValid(s: State, key: string)
    requires WellFormed(s)
    ensures var p := PlanRevocation(s, key); p.Save? ==> WellFormed(p.next) && p.next.identity == s.identity
  {
    WithoutDeviceFacts(s.devices, key);
    WithoutDeviceIsValid(s.devices, key, s.identity, PoolRange(s.identity.pool).value);
    OtherDevicesKeepValid(s, WithoutDevice(s.devices, key));
  }

  /** Whatever an operation wants to save would pass `validate` again. */
  lemma PlanKeepsValid(digest: string -> string, s: State, op: Op)
    requires WellFormed(s)
    requires op.CreateInvitation? ==> FreshDigest(s, digest(op.secret))
    ensures var p := PlanOf(digest, s, op); p.Save? ==> WellFormed(p.next) && p.next.identity == s.identity
  {
    match op
    case List =>
    case CreateInvitation(exclude, secret, now) => InvitationKeepsValid(digest, s, exclude, secret, now);
    case Enroll(key, secret, now) => EnrollmentKeepsValid(digest, s, key, secret, now);
    case SetGrant(key, ports) => GrantKeepsValid(s, key, ports);
    case Revoke(key) => RevocationKeepsValid(s, key);
  }

  /** The invitations an operation saves were there before, except one that it creates. */
  lemma PlanInvitations(digest: string -> string, s: State, op: Op)
    requires PlanOf(digest, s, op).Save?
    ensures forall p | p in PlanOf(digest, s, op).next.invitations && p !in s.invitations ::
              op.CreateInvitation? && p == Pending(digest(op.secret), op.now, op.now + TTL, op.excludeAddress)
  {
    match op
    case CreateInvitation(exclude, secret, now) => LiveOnlyFacts(s.invitations, now);
    case Enroll(key, secret, now) =>
      var i := EnrollmentFacts(digest, s, key, secret, now);
      SpentIsSubset(s.invitations, i, now);
    case _ =>
  }

  lemma PlanKeepsIdentity(digest: string -> string, s: State, op: Op)
    requires PlanOf(digest, s, op).Save?
    ensures PlanOf(digest, s, op).next.identity == s.identity
  {
  }

  ghost predicate HasKeyAndAddress(s: State, d: Device) {
    exists x :: x in s.devices && x.publicKey == d.publicKey && x.address == d.address
  }

  predicate Revokes(op: Op, key: string) {
    op.Revoke? && op.revokeKey == key
  }

  predicate Grants(op: Op, key: string) {
    op.SetGrant? && op.grantKey == key
  }

  lemma WithGrantKeeps(d: seq<Device>, key: string, g: PortGrant, x: Device)
    requires x in d
    ensures (if x.publicKey == key then x.(allowTcp := g) else x) in WithGrant(d, key, g)
  {
    var i :| 0 <= i < |d| && d[i] == x;
    assert WithGrant(d, key, g)[i] == if x.publicKey == key then x.(allowTcp := g) else x;
  }

  /** No operation but a revocation of the device touches its address, and none but a grant to the device its grant. */
  lemma PlanKeepsDevice(digest: string -> string, s: State, op: Op, d: Device)
    requires d in s.devices && !Revokes(op, d.publicKey) && PlanOf(digest, s, op).Save?
    ensures var next := PlanOf(digest, s, op).next;
            && (!Grants(op, d.publicKey) ==> d in next.devices)
            && (Grants(op, d.publicKey) ==> d.(allowTcp := op.ports) in next.devices)
            && HasKeyAndAddress(next, d)
  {
    match op
    case SetGrant(key, ports) => WithGrantKeeps(s.devices, key, ports, d);
    case Enroll(key, secret, now) => var i := EnrollmentFacts(digest, s, key, secret, now);
    case Revoke(key) => WithoutDeviceFacts(s.devices, key);
    case _ =>
  }
}
