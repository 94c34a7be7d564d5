/** What the store's operations achieve over whole runs: when each is answered with success, what is stored from then
    on, and until when. */
module ReceiverChanges {
  import opened Common
  import opened Addresses
  import opened ReceiverStore
  import opened Allocator
  import opened ReceiverPlans
  import opened ReceiverRuns

  ghost predicate DistinctKeys(d: seq<Device>) {
    forall i, j | 0 <= i < j < |d| :: d[i].publicKey != d[j].publicKey
  }

  ghost predicate KeysDistinct(s: State) {
    DistinctKeys(s.devices)
  }

  /** A device with this key is listed. */
  ghost predicate Lists(s: State, key: string) {
    exists d :: d in s.devices && d.publicKey == key
  }

  /** The store runs and no save has failed since it was opened. */
  predicate InService(y: System) {
    y.running.Some? && !y.running.value.failed
  }

  /** File and memory both hold exactly this state. */
  predicate Holds(y: System, s: State) {
    y.file == Some(s) && y.running == Some(Memory(s, false))
  }

  // ---- Keys stay distinct, whatever the digest ----

  lemma PlanKeepsKeysDistinct(digest: string -> string, s: State, op: Op)
    requires DistinctKeys(s.devices) && PlanOf(digest, s, op).Save?
    ensures DistinctKeys(PlanOf(digest, s, op).next.devices)
  {
    match op
    case Enroll(key, secret, now) =>
      var i := EnrollmentFacts(digest, s, key, secret, now);
      FindDeviceFacts(s.devices, key);
    case Revoke(key) => WithoutKeepsKeysDistinct(s.devices, key);
    case _ =>
  }

  lemma {:induction false} WithoutKeepsKeysDistinct(d: seq<Device>, key: string)
    requires DistinctKeys(d)
    ensures DistinctKeys(WithoutDevice(d, key))
  {
    if d != [] {
      var rest := WithoutDevice(d[1..], key);
      WithoutKeepsKeysDistinct(d[1..], key);
      WithoutDeviceFacts(d[1..], key);
      forall j | 0 <= j < |rest| ensures rest[j].publicKey != d[0].publicKey {
        assert rest[j] in d[1..];
      }
    }
  }

  lemma KeysDistinctNext(digest: string -> string, r: Run, m: nat, n: nat)
    requires IsRun(digest, r) && m < |r.steps| && n == m + 1
    requires EveryState(r.systems[m], s => KeysDistinct(s))
    ensures EveryState(r.systems[n], s => KeysDistinct(s))
  {
    assert StepHolds(digest, r, m);
    var y := r.systems[m];
    match r.steps[m]
    case Open(identity, created) => OpenKeepsStates(y, identity, created, s => KeysDistinct(s));
    case Operate(op, outcome) =>
      if y.running.Some? && PlanOf(digest, y.running.value.state, op).Save? {
        PlanKeepsKeysDistinct(digest, y.running.value.state, op);
      }
      OperateKeepsStates(digest, y, op, outcome, s => KeysDistinct(s));
  }

  /** Over every run, with any digest and any secrets, no two stored devices share a key. */
  lemma {:induction false} ReachableKeysDistinct(digest: string -> string, r: Run, n: nat)
    requires IsRun(digest, r) && n <= |r.steps|
    ensures EveryState(r.systems[n], s => KeysDistinct(s))
  {
    if n > 0 {
      var m: nat := n - 1;
      ReachableKeysDistinct(digest, r, m);
      KeysDistinctNext(digest, r, m, n);
    }
  }

  lemma RunningKeysDistinct(digest: string -> string, r: Run, n: nat)
    requires IsRun(digest, r) && n <= |r.steps| && r.systems[n].running.Some?
    ensures DistinctKeys(r.systems[n].running.value.state.devices)
  {
    ReachableKeysDistinct(digest, r, n);
  }

  // ---- How a save is answered ----

  /** An operation whose plan is to save is answered as planned exactly if the save goes well, and then file and memory
      hold the planned state. */
  lemma SaveAnswered(digest: string -> string, y: System, op: Op, outcome: SaveOutcome)
    requires InService(y)
    ensures var plan, after := PlanOf(digest, y.running.value.state, op), Next(digest, y, Operate(op, outcome));
            && (plan.Answer? ==> after == After(y, plan.response))
            && (plan.Save? && outcome == Saved(true) ==>
                  after.response == plan.afterwards && Holds(after.system, plan.next))
            && (plan.Save? && outcome != Saved(true) ==> after.response.Failed?)
  {
  }

  lemma NotInService(digest: string -> string, y: System, op: Op, outcome: SaveOutcome)
    requires !InService(y)
    ensures Next(digest, y, Operate(op, outcome)) == After(y, Failed(StorageFailure))
  {
  }

  /** What is left when a save does not go well: if only the temporary file stays behind, the state is saved and the
      store goes on; if the save itself fails, the store is out of service with its old memory, and the file is new
      exactly if the rename had happened. */
  lemma FailedSaveExactly(digest: string -> string, y: System, op: Op, outcome: SaveOutcome)
    requires InService(y) && PlanOf(digest, y.running.value.state, op).Save? && outcome != Saved(true)
    ensures var next, after := PlanOf(digest, y.running.value.state, op).next, Next(digest, y, Operate(op, outcome));
            match outcome
            case Saved(_) => after.response == Failed(CleanupFailure) && Holds(after.system, next)
            case Lost(renamed, cleaned) =>
              && after.response == Failed(if cleaned then StorageFailure else CleanupFailure)
              && after.system.running == Some(Memory(y.running.value.state, true))
              && after.system.file == if renamed then Some(next) else y.file
  {
  }

  /** Listing answers exactly what is stored, and changes nothing. */
  lemma ListingExactly(digest: string -> string, r: Run, n: nat, outcome: SaveOutcome)
    requires IsRun(digest, r) && n < |r.steps| && r.steps[n] == Operate(List, outcome)
    ensures r.systems[n + 1] == r.systems[n]
    ensures if InService(r.systems[n])
            then r.systems[n].file.Some? && r.responses[n] == Devices(r.systems[n].file.value.devices)
            else r.responses[n] == Failed(StorageFailure)
  {
    assert StepHolds(digest, r, n);
    ReachableCoherent(digest, r, n);
  }

  // ---- Revocation ----

  /** `after` is `before` without the one device that has this key, the others unchanged and in order. */
  ghost predicate WithoutOne(before: seq<Device>, after: seq<Device>, key: string) {
    exists i: nat :: i < |before| && before[i].publicKey == key && after == before[..i] + before[i + 1..]
  }

  lemma {:induction false} WithoutAbsent(d: seq<Device>, key: string)
    requires forall x | x in d :: x.publicKey != key
    ensures WithoutDevice(d, key) == d
  {
    if d != [] {
      WithoutAbsent(d[1..], key);
    }
  }

  lemma {:induction false} WithoutDeviceIsWithoutOne(d: seq<Device>, key: string) returns (i: nat)
    requires DistinctKeys(d) && exists x :: x in d && x.publicKey == key
    ensures i < |d| && d[i].publicKey == key && WithoutDevice(d, key) == d[..i] + d[i + 1..]
  {
    if d[0].publicKey == key {
      WithoutAbsent(d[1..], key);
      i := 0;
    } else {
      var j := WithoutDeviceIsWithoutOne(d[1..], key);
      i := j + 1;
      assert d[..i] == [d[0]] + d[1..][..j] && d[i + 1..] == d[1..][j + 1..];
    }
  }

  lemma RemovalIsFinal(before: seq<Device>, i: nat)
    requires DistinctKeys(before) && i < |before|
    ensures forall d | d in before[..i] + before[i + 1..] :: d.publicKey != before[i].publicKey
  {
  }

  lemma ListedIsFound(s: State, key: string)
    ensures FindDevice(s.devices, key).Some? <==> Lists(s, key)
  {
    FindDeviceFacts(s.devices, key);
  }

  lemma RevocationPlanned(digest: string -> string, s: State, key: string)
    requires DistinctKeys(s.devices)
    ensures PlanOf(digest, s, Revoke(key)).Save? <==> Lists(s, key)
    ensures var plan := PlanOf(digest, s, Revoke(key));
            && (plan.Answer? ==> plan.response == Failed(UnknownDevice))
            && (plan.Save? ==>
                  && plan.afterwards == Done && plan.next == s.(devices := plan.next.devices)
                  && WithoutOne(s.devices, plan.next.devices, key) && !Lists(plan.next, key))
  {
    ListedIsFound(s, key);
    if Lists(s, key) {
      var i := WithoutDeviceIsWithoutOne(s.devices, key);
      RemovalIsFinal(s.devices, i);
    }
  }

  /** When a revocation is answered with success, and what it does: exactly if the key is listed, no save has failed
      before, and this save goes well; then file and memory hold the list without that one device, all others unchanged
      and in order, and the same invitations. */
  lemma RevocationExactly(digest: string -> string, r: Run, n: nat, key: string, outcome: SaveOutcome)
    requires IsRun(digest, r) && n < |r.steps| && r.steps[n] == Operate(Revoke(key), outcome)
    ensures r.responses[n] == Done <==>
            InService(r.systems[n]) && Lists(r.systems[n].running.value.state, key) && outcome == Saved(true)
    ensures InService(r.systems[n]) && outcome == Saved(true) && r.responses[n] != Done ==>
              r.responses[n] == Failed(UnknownDevice)
    ensures r.responses[n] == Done ==>
              && r.systems[n].running.Some? && r.systems[n + 1].file.Some?
              && var before, after := r.systems[n].running.value.state, r.systems[n + 1].file.value;
                 && Holds(r.systems[n], before) && Holds(r.systems[n + 1], after)
                 && WithoutOne(before.devices, after.devices, key) && !Lists(after, key)
                 && after == before.(devices := after.devices)
  {
    assert StepHolds(digest, r, n);
    ReachableCoherent(digest, r, n);
    if InService(r.systems[n]) {
      RunningKeysDistinct(digest, r, n);
      RevocationPlanned(digest, r.systems[n].running.value.state, key);
      SaveAnswered(digest, r.systems[n], Revoke(key), outcome);
    } else {
      NotInService(digest, r.systems[n], Revoke(key), outcome);
    }
  }

  /** Neither file nor memory lists the key. */
  ghost predicate Absent(y: System, key: string) {
    EveryState(y, s => !Lists(s, key))
  }

  /** The step puts an enrollment of the key into the file: it is durably saved, or renamed before the save failed. */
  predicate CommitsEnrollment(step: Step, key: string) {
    step.Operate? && step.op.Enroll? && step.op.publicKey == key && (step.outcome.Saved? || step.outcome.renamed)
  }

  lemma WithGrantKeys(d: seq<Device>, key: string, g: PortGrant)
    ensures forall i | 0 <= i < |d| :: WithGrant(d, key, g)[i].publicKey == d[i].publicKey
  {
  }

  lemma PlanKeepsAbsent(digest: string -> string, s: State, op: Op, key: string)
    requires !Lists(s, key) && PlanOf(digest, s, op).Save? && !(op.Enroll? && op.publicKey == key)
    ensures !Lists(PlanOf(digest, s, op).next, key)
  {
    match op
    case Enroll(other, secret, now) => var i := EnrollmentFacts(digest, s, other, secret, now);
    case SetGrant(other, ports) => WithGrantKeys(s.devices, other, ports);
    case Revoke(other) => WithoutDeviceFacts(s.devices, other);
    case _ =>
  }

  /** A save that fails before the rename leaves both states alone. */
  lemma LostBeforeRename(digest: string -> string, y: System, op: Op, outcome: SaveOutcome)
    requires outcome.Lost? && !outcome.renamed
    ensures var z := Next(digest, y, Operate(op, outcome)).system;
            z.file == y.file && (z.running.Some? ==> y.running.Some? && z.running.value.state == y.running.value.state)
  {
  }

  lemma AbsentNext(digest: string -> string, r: Run, m: nat, n: nat, key: string)
    requires IsRun(digest, r) && m < |r.steps| && n == m + 1
    requires Absent(r.systems[m], key) && !CommitsEnrollment(r.steps[m], key)
    ensures Absent(r.systems[n], key)
  {
    assert StepHolds(digest, r, m);
    var y := r.systems[m];
    match r.steps[m]
    case Open(identity, created) => OpenKeepsStates(y, identity, created, s => !Lists(s, key));
    case Operate(op, outcome) =>
      if op.Enroll? && op.publicKey == key {
        LostBeforeRename(digest, y, op, outcome);
      } else {
        if y.running.Some? && PlanOf(digest, y.running.value.state, op).Save? {
          PlanKeepsAbsent(digest, y.running.value.state, op, key);
        }
        OperateKeepsStates(digest, y, op, outcome, s => !Lists(s, key));
      }
  }

  /** A key that is nowhere comes back only by an enrollment of that very key whose save reaches the file. */
  lemma {:induction false} AbsentUntilEnrolled(digest: string -> string, r: Run, a: nat, b: nat, key: string)
    returns (m: nat)
    requires IsRun(digest, r) && a <= b <= |r.steps| && Absent(r.systems[a], key) && !Absent(r.systems[b], key)
    ensures a <= m < b && CommitsEnrollment(r.steps[m], key) && Absent(r.systems[m], key)
    decreases b
  {
    var l: nat := b - 1;
    if Absent(r.systems[l], key) {
      m := l;
      if !CommitsEnrollment(r.steps[l], key) {
        AbsentNext(digest, r, l, b, key);
      }
    } else {
      m := AbsentUntilEnrolled(digest, r, a, l, key);
    }
  }

  /** A revocation that was answered with success is final: the key is in no file and no memory afterwards, through
      failed saves and reopenings, unless an enrollment of it commits later. */
  lemma RevocationIsFinal(digest: string -> string, r: Run, n: nat, b: nat, key: string, outcome: SaveOutcome)
    returns (m: nat)
    requires IsRun(digest, r) && n < b <= |r.steps|
    requires r.steps[n] == Operate(Revoke(key), outcome) && r.responses[n] == Done
    ensures Absent(r.systems[n + 1], key)
    ensures !Absent(r.systems[b], key) ==> n < m < b && CommitsEnrollment(r.steps[m], key)
  {
    RevocationExactly(digest, r, n, key, outcome);
    var a: nat := n + 1;
    m := 0;
    if !Absent(r.systems[b], key) {
      m := AbsentUntilEnrolled(digest, r, a, b, key);
    }
  }

  // ---- Grants ----

  /** A grant the store takes: everything, or at most 256 distinct ports from 1 to 65535. */
  ghost predicate AcceptableGrant(g: PortGrant) {
    g.Ports? ==>
      && |g.ports| <= 256 && (forall i | 0 <= i < |g.ports| :: 1 <= g.ports[i] <= 65535)
      && (forall i, j | 0 <= i < j < |g.ports| :: g.ports[i] != g.ports[j])
  }

  /** `after` is `before` with this grant for the device that has this key, and nothing else changed. */
  ghost predicate Regranted(before: seq<Device>, after: seq<Device>, key: string, g: PortGrant) {
    && |after| == |before|
    && forall i | 0 <= i < |before| ::
         after[i] == if before[i].publicKey == key then Device(key, before[i].address, g) else before[i]
  }

  lemma GrantPlanned(digest: string -> string, s: State, key: string, g: PortGrant)
    ensures var plan := PlanOf(digest, s, SetGrant(key, g));
            && (plan.Save? <==> AcceptableGrant(g) && Lists(s, key))
            && (plan.Answer? ==>
                  plan.response == Failed(if AcceptableGrant(g) then UnknownDevice else InvalidGrant))
            && (plan.Save? ==> plan.afterwards == Done && plan.next == s.(devices := plan.next.devices)
                               && Regranted(s.devices, plan.next.devices, key, g))
  {
    ListedIsFound(s, key);
  }

  /** When a grant is answered with success, and what it does: exactly if it is acceptable, the key is listed, no save
      has failed before, and this save goes well; then file and memory hold the same list with exactly this grant for
      that key. */
  lemma GrantExactly(digest: string -> string, r: Run, n: nat, key: string, g: PortGrant, outcome: SaveOutcome)
    requires IsRun(digest, r) && n < |r.steps| && r.steps[n] == Operate(SetGrant(key, g), outcome)
    ensures r.responses[n] == Done <==>
              && InService(r.systems[n]) && AcceptableGrant(g) && Lists(r.systems[n].running.value.state, key)
              && outcome == Saved(true)
    ensures InService(r.systems[n]) && outcome == Saved(true) && r.responses[n] != Done ==>
              r.responses[n] == Failed(if AcceptableGrant(g) then UnknownDevice else InvalidGrant)
    ensures r.responses[n] == Done ==>
              && r.systems[n].running.Some? && r.systems[n + 1].file.Some?
              && var before, after := r.systems[n].running.value.state, r.systems[n + 1].file.value;
                 && Holds(r.systems[n], before) && Holds(r.systems[n + 1], after)
                 && Regranted(before.devices, after.devices, key, g)
                 && after == before.(devices := after.devices)
  {
    assert StepHolds(digest, r, n);
    ReachableCoherent(digest, r, n);
    if InService(r.systems[n]) {
      GrantPlanned(digest, r.systems[n].running.value.state, key, g);
      SaveAnswered(digest, r.systems[n], SetGrant(key, g), outcome);
    } else {
      NotInService(digest, r.systems[n], SetGrant(key, g), outcome);
    }
  }

  lemma GrantedDevice(before: State, after: State, key: string, g: PortGrant) returns (d: Device)
    requires Lists(before, key) && Regranted(before.devices, after.devices, key, g)
    ensures d in after.devices && d.publicKey == key && d.allowTcp == g
  {
    var i :| 0 <= i < |before.devices| && before.devices[i].publicKey == key;
    d := after.devices[i];
  }

  lemma OneDevicePerKey(s: State, d: Device)
    requires KeysDistinct(s) && d in s.devices
    ensures forall x | x in s.devices && x.publicKey == d.publicKey :: x == d
  {
  }

  /** A grant that was answered with success is in force: at every later moment the file has the device with exactly
      this grant, through failed saves and reopenings, until the device is granted something else or revoked. */
  lemma GrantIsInForce(digest: string -> string, r: Run, n: nat, b: nat, key: string, g: PortGrant,
                       outcome: SaveOutcome)
    requires IsRun(digest, r) && n < b <= |r.steps|
    requires r.steps[n] == Operate(SetGrant(key, g), outcome) && r.responses[n] == Done
    requires Unrevoked(r, n + 1, b, key) && Ungranted(r, n + 1, b, key)
    ensures r.systems[b].file.Some? && Lists(r.systems[b].file.value, key)
    ensures forall d | d in r.systems[b].file.value.devices && d.publicKey == key :: d.allowTcp == g
  {
    GrantExactly(digest, r, n, key, g, outcome);
    var d := GrantedDevice(r.systems[n].running.value.state, r.systems[n + 1].file.value, key, g);
    DeviceKeepsAddress(digest, r, n + 1, b, d);
    ReachableKeysDistinct(digest, r, b);
    OneDevicePerKey(r.systems[b].file.value, d);
  }

  // ---- Enrollments ----

  lemma RunningIsValid(digest: string -> string, r: Run, n: nat)
    requires IsRun(digest, r) && SoundDigest(digest) && FreshSecrets(r) && n <= |r.steps| && r.systems[n].running.Some?
    ensures Valid(r.systems[n].running.value.state)
  {
    ReachableValid(digest, r, n);
  }

  /** The secret opens a live invitation that leaves the key a place. */
  ghost predicate Redeems(digest: string -> string, s: State, key: string, secret: string, now: int)
    requires PoolRange(s.identity.pool).Some?
  {
    && IsKey(key) && key != s.identity.receiverKey && IsKey(secret)
    && exists i: nat :: i < |s.invitations| && Opens(digest, s, i, secret, now)
                        && HasPlace(s, key, s.invitations[i].excludeAddress)
  }

  lemma AnswersAreRefusals(digest: string -> string, s: State, key: string, secret: string, now: Instant)
    ensures PlanEnrollment(digest, s, key, secret, now).Answer? ==>
              PlanEnrollment(digest, s, key, secret, now).response.Failed?
  {
  }

  /** When an enrollment is answered with a device: exactly if the secret opens a live invitation that leaves the key a
      place, no save has failed before, and this save goes well. */
  lemma EnrollmentExactly(digest: string -> string, r: Run, n: nat, key: string, secret: string, now: Instant,
                          outcome: SaveOutcome)
    requires IsRun(digest, r) && SoundDigest(digest) && FreshSecrets(r) && n < |r.steps|
    requires r.steps[n] == Operate(Enroll(key, secret, now), outcome)
    ensures InService(r.systems[n]) ==> PoolRange(r.systems[n].running.value.state.identity.pool).Some?
    ensures r.responses[n].Enrolled? <==>
              && InService(r.systems[n]) && Redeems(digest, r.systems[n].running.value.state, key, secret, now)
              && outcome == Saved(true)
  {
    assert StepHolds(digest, r, n);
    var y := r.systems[n];
    if InService(y) {
      RunningIsValid(digest, r, n);
      EnrollmentGrantedExactly(digest, y.running.value.state, key, secret, now);
      AnswersAreRefusals(digest, y.running.value.state, key, secret, now);
      if PlanEnrollment(digest, y.running.value.state, key, secret, now).Save? {
        var i := EnrollmentFacts(digest, y.running.value.state, key, secret, now);
      }
      SaveAnswered(digest, y, Enroll(key, secret, now), outcome);
    } else {
      NotInService(digest, y, Enroll(key, secret, now), outcome);
    }
  }

  /** The device that has this key, if any, is at the excluded address. */
  ghost predicate ListedAt(s: State, key: string, address: Option<string>) {
    exists d :: d in s.devices && d.publicKey == key && Some(d.address) == address
  }

  /** Every address of the pool is the receiver's, a device's, or excluded. */
  ghost predicate PoolIsTaken(s: State, exclude: Option<string>)
    requires PoolRange(s.identity.pool).Some?
  {
    var range := PoolRange(s.identity.pool).value;
    forall l | range.first <= l <= range.last :: !Available(s, exclude, AddressText(l))
  }

  /** The reason for which a key with a live invitation is turned away, if it is. */
  ghost predicate TurnedAway(s: State, key: string, exclude: Option<string>, reason: Rejection)
    requires PoolRange(s.identity.pool).Some?
  {
    match reason
    case Excluded => ListedAt(s, key, exclude)
    case Capacity => !Lists(s, key) && |s.devices| >= 16
    case Pool => !Lists(s, key) && |s.devices| < 16 && PoolIsTaken(s, exclude)
    case Route => false
  }

  lemma DeviceTurnedAway(s: State, key: string, exclude: Option<string>, reason: Rejection)
    requires PoolRange(s.identity.pool).Some? && exclude != Some("") && KeysDistinct(s)
    ensures PlanDevice(s, key, exclude) == Failed(Rejected(reason)) <==> TurnedAway(s, key, exclude, reason)
  {
    ListedIsFound(s, key);
    FindDeviceFacts(s.devices, key);
    var known := FindDevice(s.devices, key);
    if known.Some? {
      OneDevicePerKey(s, known.value);
    } else if |s.devices| < MAX_DEVICES {
      var m := AllocationIsLowest(s, key, exclude);
    }
  }

  lemma EnrollmentTurnedAway(digest: string -> string, s: State, key: string, secret: string, now: Instant, i: nat,
                             reason: Rejection)
    requires WellFormed(s) && KeysDistinct(s) && IsKey(key) && key != s.identity.receiverKey && IsKey(secret)
    requires i < |s.invitations| && Opens(digest, s, i, secret, now)
    ensures PlanEnrollment(digest, s, key, secret, now) == Answer(Failed(Rejected(reason))) <==>
            TurnedAway(s, key, s.invitations[i].excludeAddress, reason)
  {
    OpensAtMostOne(digest, s, secret, now);
    ExclusionNotEmpty(s, i);
    DeviceTurnedAway(s, key, s.invitations[i].excludeAddress, reason);
  }

  lemma FoundIfOpens(digest: string -> string, s: State, secret: string, now: int)
    ensures var found := FindInvitation(s.invitations, digest(secret), now);
            && (found.Some? <==> exists i: nat :: i < |s.invitations| && Opens(digest, s, i, secret, now))
            && (found.Some? ==> found.value < |s.invitations|)
  {
    FindInvitationFacts(s.invitations, digest(secret), now);
    var found := FindInvitation(s.invitations, digest(secret), now);
    if found.Some? {
      assert Opens(digest, s, found.value, secret, now);
    }
  }

  lemma PlaceIsNeverUnusable(s: State, key: string, exclude: Option<string>)
    ensures PlanDevice(s, key, exclude) != Failed(Unusable)
  {
  }

  lemma UnusableIfNotFound(digest: string -> string, s: State, key: string, secret: string, now: Instant)
    ensures var found := FindInvitation(s.invitations, digest(secret), now);
            PlanEnrollment(digest, s, key, secret, now) == Answer(Failed(Unusable)) <==>
              !(IsKey(key) && key != s.identity.receiverKey && IsKey(secret)
                && found.Some? && found.value < |s.invitations|)
  {
    var found := FindInvitation(s.invitations, digest(secret), now);
    if found.Some? && found.value < |s.invitations| {
      PlaceIsNeverUnusable(s, key, s.invitations[found.value].excludeAddress);
    }
  }

  lemma EnrollmentUnusable(digest: string -> string, s: State, key: string, secret: string, now: Instant)
    ensures PlanEnrollment(digest, s, key, secret, now) == Answer(Failed(Unusable)) <==>
              !(&& IsKey(key) && key != s.identity.receiverKey && IsKey(secret)
                && exists i: nat :: i < |s.invitations| && Opens(digest, s, i, secret, now))
  {
    FoundIfOpens(digest, s, secret, now);
    UnusableIfNotFound(digest, s, key, secret, now);
  }

  /** Why an enrollment is refused: as unusable exactly if a key or the secret is malformed or the secret opens no live
      invitation; otherwise with the reason that applies to this key and this invitation's exclusion. A refusal comes
      before any save, so what the save would have done does not matter. */
  lemma RefusalExactly(digest: string -> string, r: Run, n: nat, key: string, secret: string, now: Instant,
                       outcome: SaveOutcome)
    requires IsRun(digest, r) && SoundDigest(digest) && FreshSecrets(r) && n < |r.steps|
    requires r.steps[n] == Operate(Enroll(key, secret, now), outcome) && InService(r.systems[n])
    ensures var s := r.systems[n].running.value.state;
            && PoolRange(s.identity.pool).Some?
            && (r.responses[n] == Failed(Unusable) <==>
                  !(&& IsKey(key) && key != s.identity.receiverKey && IsKey(secret)
                    && exists i: nat :: i < |s.invitations| && Opens(digest, s, i, secret, now)))
            && forall i: nat, reason: Rejection | i < |s.invitations| && Opens(digest, s, i, secret, now)
                   && IsKey(key) && key != s.identity.receiverKey && IsKey(secret) ::
                 r.responses[n] == Failed(Rejected(reason)) <==>
                   TurnedAway(s, key, s.invitations[i].excludeAddress, reason)
  {
    assert StepHolds(digest, r, n);
    RunningIsValid(digest, r, n);
    RunningKeysDistinct(digest, r, n);
    var s := r.systems[n].running.value.state;
    EnrollmentUnusable(digest, s, key, secret, now);
    RefusalIsPlanned(digest, r.systems[n], key, secret, now, outcome);
    forall i: nat, reason: Rejection | i < |s.invitations| && Opens(digest, s, i, secret, now)
        && IsKey(key) && key != s.identity.receiverKey && IsKey(secret)
      ensures PlanEnrollment(digest, s, key, secret, now) == Answer(Failed(Rejected(reason))) <==>
              TurnedAway(s, key, s.invitations[i].excludeAddress, reason)
    {
      EnrollmentTurnedAway(digest, s, key, secret, now, i, reason);
    }
  }

  lemma RefusalIsPlanned(digest: string -> string, y: System, key: string, secret: string, now: Instant,
                         outcome: SaveOutcome)
    requires InService(y)
    ensures var plan := PlanEnrollment(digest, y.running.value.state, key, secret, now);
            var response := Next(digest, y, Operate(Enroll(key, secret, now), outcome)).response;
            && (response == Failed(Unusable) <==> plan == Answer(Failed(Unusable)))
            && forall reason: Rejection ::
                 response == Failed(Rejected(reason)) <==> plan == Answer(Failed(Rejected(reason)))
  {
  }

  // ---- Invitations ----

  /** The exclusion is left out, or it is a pool address of no device and not the receiver's own. */
  ghost predicate AcceptableExclusion(s: State, exclude: Option<string>)
    requires PoolRange(s.identity.pool).Some?
  {
    exclude.Some? ==>
      && Ipv4(exclude.value).Some? && exclude.value != s.identity.receiverAddress
      && var n, range := Ipv4(exclude.value).value, PoolRange(s.identity.pool).value;
         range.first <= n <= range.last && forall d | d in s.devices :: d.address != exclude.value
  }

  /** The invitations that are issued and not yet expired. */
  ghost function LiveAt(v: seq<Pending>, now: int): set<Pending> {
    set p | p in v && p.issuedAt <= now < p.expiresAt
  }

  lemma {:induction false} DistinctSize(v: seq<Pending>)
    requires DistinctInvitations(v)
    ensures |set p | p in v| == |v|
  {
    var all := set p | p in v;
    if v != [] {
      var rest := set p | p in v[1..];
      DistinctSize(v[1..]);
      assert v == [v[0]] + v[1..];
      assert all == rest + {v[0]};
      assert v[0] !in rest;
    }
  }

  lemma LiveOnlyCounts(v: seq<Pending>, now: int)
    requires DistinctInvitations(v)
    ensures |LiveOnly(v, now)| == |LiveAt(v, now)|
  {
    LiveOnlyFacts(v, now);
    DistinctSize(LiveOnly(v, now));
    assert (set p | p in LiveOnly(v, now)) == LiveAt(v, now);
  }

  /** `after` is what is still live of `before`, in whatever order, and then the new invitation. */
  ghost predicate OneMoreInvitation(before: seq<Pending>, after: seq<Pending>, p: Pending, now: int) {
    && after != [] && after[|after| - 1] == p
    && forall q :: q in after[..|after| - 1] <==> q in LiveAt(before, now)
  }

  /** Why an invitation is refused: too many are live, or the excluded address is a device's, or no usable one at
      all. */
  ghost function WhyNotInvited(s: State, exclude: Option<string>): Failure
    requires PoolRange(s.identity.pool).Some?
  {
    if AcceptableExclusion(s, exclude) then TooManyInvitations
    else if AcceptableExclusion(s.(devices := []), exclude) then ExclusionAllocated
    else ExclusionInvalid
  }

  lemma ExclusionChecked(s: State, exclude: Option<string>)
    requires PoolRange(s.identity.pool).Some?
    ensures AcceptableExclusion(s, exclude) <==>
              (exclude.Some? ==>
                 && ValidExclusion(exclude.value, s.identity.receiverAddress, PoolRange(s.identity.pool).value)
                 && !HasAddress(s.devices, exclude.value))
  {
  }

  lemma NewInvitationIsLast(v: seq<Pending>, p: Pending, now: int)
    ensures OneMoreInvitation(v, LiveOnly(v, now) + [p], p, now)
  {
    LiveOnlyFacts(v, now);
    var w := LiveOnly(v, now) + [p];
    assert w[..|w| - 1] == LiveOnly(v, now);
  }

  lemma InvitationPlanned(digest: string -> string, s: State, exclude: Option<string>, secret: string, now: Instant)
    requires PoolRange(s.identity.pool).Some? && DistinctInvitations(s.invitations)
    ensures var plan := PlanOf(digest, s, CreateInvitation(exclude, secret, now));
            && (plan.Save? <==> AcceptableExclusion(s, exclude) && |LiveAt(s.invitations, now)| < 16)
            && (plan.Answer? ==> plan.response == Failed(WhyNotInvited(s, exclude)))
            && (plan.Save? ==>
                  && plan.afterwards == Invitation(secret) && plan.next == s.(invitations := plan.next.invitations)
                  && OneMoreInvitation(s.invitations, plan.next.invitations,
                                       Pending(digest(secret), now, now + 600_000, exclude), now))
  {
    ExclusionChecked(s, exclude);
    ExclusionChecked(s.(devices := []), exclude);
    LiveOnlyCounts(s.invitations, now);
    NewInvitationIsLast(s.invitations, Pending(digest(secret), now, now + TTL, exclude), now);
  }

  /** When an invitation is answered, and what it does: exactly if its exclusion is acceptable, fewer than 16
      invitations are live, no save has failed before, and this save goes well; then file and memory hold the live
      invitations and the new one, good for ten minutes. */
  lemma InvitationExactly(digest: string -> string, r: Run, n: nat, exclude: Option<string>, secret: string,
                          now: Instant, outcome: SaveOutcome)
    requires IsRun(digest, r) && SoundDigest(digest) && FreshSecrets(r) && n < |r.steps|
    requires r.steps[n] == Operate(CreateInvitation(exclude, secret, now), outcome)
    ensures InService(r.systems[n]) ==> PoolRange(r.systems[n].running.value.state.identity.pool).Some?
    ensures r.responses[n] == Invitation(secret) <==>
              && InService(r.systems[n]) && AcceptableExclusion(r.systems[n].running.value.state, exclude)
              && |LiveAt(r.systems[n].running.value.state.invitations, now)| < 16 && outcome == Saved(true)
    ensures InService(r.systems[n]) && outcome == Saved(true) && r.responses[n].Failed? ==>
              r.responses[n].failure == WhyNotInvited(r.systems[n].running.value.state, exclude)
    ensures r.responses[n] == Invitation(secret) ==>
              && r.systems[n].running.Some? && r.systems[n + 1].file.Some?
              && var before, after := r.systems[n].running.value.state, r.systems[n + 1].file.value;
                 && Holds(r.systems[n], before) && Holds(r.systems[n + 1], after)
                 && after == before.(invitations := after.invitations)
                 && OneMoreInvitation(before.invitations, after.invitations,
                                      Pending(digest(secret), now, now + 600_000, exclude), now)
  {
    assert StepHolds(digest, r, n);
    ReachableCoherent(digest, r, n);
    if InService(r.systems[n]) {
      RunningIsValid(digest, r, n);
      RunningIsDistinct(digest, r, n);
      InvitationPlanned(digest, r.systems[n].running.value.state, exclude, secret, now);
      SaveAnswered(digest, r.systems[n], CreateInvitation(exclude, secret, now), outcome);
    } else {
      NotInService(digest, r.systems[n], CreateInvitation(exclude, secret, now), outcome);
    }
  }

  /** The step leaves an unspent invitation alone: it does not enroll with its secret, and what it does happens while
      the invitation is live. */
  predicate LeavesAlone(step: Step, secret: string, p: Pending) {
    step.Operate? ==>
      && (step.op.CreateInvitation? ==> p.issuedAt <= step.op.now < p.expiresAt)
      && (step.op.Enroll? ==> step.op.enrollSecret != secret && p.issuedAt <= step.op.at < p.expiresAt)
  }

  lemma SpendingAnother(v: seq<Pending>, i: nat, now: int, p: Pending)
    requires i < |v| && p in v && p != v[i] && Live(p, now)
    ensures p in Spent(v, i, now)
  {
    LiveOnlyFacts(v[..i] + v[i + 1..], now);
    var j :| 0 <= j < |v| && v[j] == p;
    assert (v[..i] + v[i + 1..])[if j < i then j else j - 1] == p;
  }

  lemma PlanKeepsInvitation(digest: string -> string, s: State, op: Op, outcome: SaveOutcome, secret: string,
                            p: Pending)
    requires SoundDigest(digest) && IsKey(secret) && p.digest == digest(secret) && p in s.invitations
    requires LeavesAlone(Operate(op, outcome), secret, p) && PlanOf(digest, s, op).Save?
    ensures p in PlanOf(digest, s, op).next.invitations
  {
    match op
    case CreateInvitation(exclude, other, now) => LiveOnlyFacts(s.invitations, now);
    case Enroll(key, other, now) =>
      var i := EnrollmentFacts(digest, s, key, other, now);
      SpendingAnother(s.invitations, i, now, p);
    case _ =>
  }

  predicate Invites(s: State, p: Pending) {
    p in s.invitations
  }

  /** Every state there is, and there is one in the file, has the invitation. */
  ghost predicate Keeps(y: System, p: Pending) {
    y.directory && y.file.Some? && EveryState(y, s => Invites(s, p))
  }

  lemma OpenLeavesInvitation(y: System, identity: Identity, created: SaveOutcome, p: Pending)
    requires Keeps(y, p)
    ensures Keeps(OpenEffect(y, identity, created).system, p)
  {
  }

  lemma KeepsNext(digest: string -> string, r: Run, m: nat, n: nat, secret: string, p: Pending)
    requires IsRun(digest, r) && SoundDigest(digest) && m < |r.steps| && n == m + 1
    requires IsKey(secret) && p.digest == digest(secret) && Keeps(r.systems[m], p) && LeavesAlone(r.steps[m], secret, p)
    ensures Keeps(r.systems[n], p)
  {
    assert StepHolds(digest, r, m);
    var y := r.systems[m];
    match r.steps[m]
    case Open(identity, created) =>
      OpenKeepsFile(y, identity, created);
      OpenLeavesInvitation(y, identity, created, p);
    case Operate(op, outcome) =>
      if y.running.Some? {
        OperateLeaves(digest, y, op, outcome);
        if PlanOf(digest, y.running.value.state, op).Save? {
          PlanKeepsInvitation(digest, y.running.value.state, op, outcome, secret, p);
        }
      }
      OperateKeepsStates(digest, y, op, outcome, s => Invites(s, p));
  }

  lemma {:induction false} KeepsLater(digest: string -> string, r: Run, a: nat, b: nat, secret: string, p: Pending)
    requires IsRun(digest, r) && SoundDigest(digest) && a <= b <= |r.steps|
    requires IsKey(secret) && p.digest == digest(secret) && Keeps(r.systems[a], p)
    requires forall m | a <= m < b :: LeavesAlone(r.steps[m], secret, p)
    ensures Keeps(r.systems[b], p)
    decreases b
  {
    if a < b {
      var m: nat := b - 1;
      KeepsLater(digest, r, a, m, secret, p);
      KeepsNext(digest, r, m, b, secret, p);
    }
  }

  lemma HeldIsKept(y: System, s: State, p: Pending)
    requires Coherent(y) && Holds(y, s) && s.invitations != [] && s.invitations[|s.invitations| - 1] == p
    ensures Keeps(y, p)
  {
    assert Invites(s, p);
  }

  lemma AnsweredInvitationIsHeld(digest: string -> string, r: Run, n: nat, exclude: Option<string>, secret: string,
                                 now: Instant, outcome: SaveOutcome) returns (s: State)
    requires IsRun(digest, r) && SoundDigest(digest) && FreshSecrets(r) && n < |r.steps|
    requires r.steps[n] == Operate(CreateInvitation(exclude, secret, now), outcome)
    requires r.responses[n] == Invitation(secret)
    ensures Holds(r.systems[n + 1], s) && s.invitations != []
    ensures s.invitations[|s.invitations| - 1] == Pending(digest(secret), now, now + 600_000, exclude)
  {
    InvitationExactly(digest, r, n, exclude, secret, now, outcome);
    s := r.systems[n + 1].file.value;
  }

  lemma OnlyOneOpens(digest: string -> string, s: State, secret: string, now: int, p: Pending)
    requires DistinctInvitations(s.invitations) && p in s.invitations && p.digest == digest(secret)
    requires p.issuedAt <= now < p.expiresAt
    ensures exists i: nat :: i < |s.invitations| && Opens(digest, s, i, secret, now) && s.invitations[i] == p
    ensures forall i: nat | i < |s.invitations| && Opens(digest, s, i, secret, now) :: s.invitations[i] == p
  {
    var j :| 0 <= j < |s.invitations| && s.invitations[j] == p;
    assert Opens(digest, s, j, secret, now);
  }

  /** An answered invitation works: for ten minutes, until its secret is first used, through operations of others,
      failed saves and reopenings, an enrollment with it succeeds exactly if the key is a stranger's or a device's, that
      key can have a place, the store is in service, and its save goes well. */
  lemma InvitationIsRedeemable(digest: string -> string, r: Run, n: nat, exclude: Option<string>, secret: string,
                               now: Instant, issued: SaveOutcome, b: nat, key: string, at: Instant,
                                 outcome: SaveOutcome)
    requires IsRun(digest, r) && SoundDigest(digest) && FreshSecrets(r) && n < b < |r.steps|
    requires r.steps[n] == Operate(CreateInvitation(exclude, secret, now), issued)
    requires r.responses[n] == Invitation(secret)
    requires forall m | n < m < b ::
               LeavesAlone(r.steps[m], secret, Pending(digest(secret), now, now + 600_000, exclude))
    requires r.steps[b] == Operate(Enroll(key, secret, at), outcome) && now <= at < now + 600_000
    ensures InService(r.systems[b]) ==> PoolRange(r.systems[b].running.value.state.identity.pool).Some?
    ensures r.responses[b].Enrolled? <==>
              && InService(r.systems[b])
              && IsKey(key) && key != r.systems[b].running.value.state.identity.receiverKey
              && HasPlace(r.systems[b].running.value.state, key, exclude) && outcome == Saved(true)
  {
    var p := Pending(digest(secret), now, now + 600_000, exclude);
    var first: nat := n + 1;
    assert Creates(r.steps[n]);
    var s := AnsweredInvitationIsHeld(digest, r, n, exclude, secret, now, issued);
    ReachableCoherent(digest, r, first);
    HeldIsKept(r.systems[first], s, p);
    KeepsLater(digest, r, first, b, secret, p);
    EnrollmentExactly(digest, r, b, key, secret, at, outcome);
    if InService(r.systems[b]) {
      RunningIsDistinct(digest, r, b);
      OnlyOneOpens(digest, r.systems[b].running.value.state, secret, at, p);
    }
  }

  // ---- Failure and opening ----

  lemma FailedNext(digest: string -> string, r: Run, m: nat, n: nat)
    requires IsRun(digest, r) && m < |r.steps| && n == m + 1 && !r.steps[m].Open? && !InService(r.systems[m])
    ensures r.systems[n] == r.systems[m] && r.responses[m] == Failed(StorageFailure)
  {
    assert StepHolds(digest, r, m);
    NotInService(digest, r.systems[m], r.steps[m].op, r.steps[m].outcome);
  }

  lemma {:induction false} OutOfServiceStays(digest: string -> string, r: Run, a: nat, b: nat)
    requires IsRun(digest, r) && a <= b <= |r.steps| && !InService(r.systems[a])
    requires forall m | a <= m < b :: r.steps[m].Operate?
    ensures r.systems[b] == r.systems[a]
    decreases b
  {
    if a < b {
      var m: nat := b - 1;
      OutOfServiceStays(digest, r, a, m);
      FailedNext(digest, r, m, b);
    }
  }

  /** The save of step `n` failed: the operation wanted to save, and its outcome was a loss. */
  ghost predicate SaveFails(digest: string -> string, r: Run, n: nat)
    requires n < |r.steps| < |r.systems|
  {
    && r.steps[n].Operate? && r.steps[n].outcome.Lost? && InService(r.systems[n])
    && PlanOf(digest, r.systems[n].running.value.state, r.steps[n].op).Save?
  }

  /** After a failed save nothing is changed and everything is refused as a storage failure until the store is opened
      again. */
  lemma FailedSaveStopsTheStore(digest: string -> string, r: Run, n: nat, b: nat)
    requires IsRun(digest, r) && n < b < |r.steps| && SaveFails(digest, r, n)
    requires forall m | n < m <= b :: r.steps[m].Operate?
    ensures r.responses[n].Failed? && r.responses[b] == Failed(StorageFailure)
    ensures r.systems[b + 1] == r.systems[n + 1]
  {
    assert StepHolds(digest, r, n);
    OutOfServiceStays(digest, r, n + 1, b);
    FailedNext(digest, r, b, b + 1);
  }

  /** When opening succeeds, in any reachable system: for a usable identity, exactly if this opening creates the store
      and its save goes well, or the store exists with a file of that very identity; then the store is in service with
      the file's state, which is the empty one if it was just created. */
  lemma OpeningExactly(digest: string -> string, r: Run, n: nat, identity: Identity, created: SaveOutcome)
    requires IsRun(digest, r) && SoundDigest(digest) && FreshSecrets(r) && n < |r.steps|
    requires r.steps[n] == Open(identity, created)
    ensures r.responses[n] == Done <==>
              && IsKey(identity.receiverKey) && Ipv4(identity.receiverAddress).Some? && PoolRange(identity.pool).Some?
              && if r.systems[n].directory then r.systems[n].file.Some? && r.systems[n].file.value.identity == identity
                 else created == Saved(true)
    ensures r.responses[n] == Done ==>
              && r.systems[n + 1].file.Some? && Holds(r.systems[n + 1], r.systems[n + 1].file.value)
              && r.systems[n + 1].file ==
                 if r.systems[n].directory then r.systems[n].file else Some(State(identity, [], []))
    ensures r.responses[n] != Done ==> r.systems[n + 1].running.None?
  {
    assert StepHolds(digest, r, n);
    ReachableValid(digest, r, n);
  }
}
