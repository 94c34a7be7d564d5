/** What holds over every run of the receiver's store: operations, failed saves, and reopenings. */
module ReceiverRuns {
  import opened Common
  import opened Addresses
  import opened ReceiverStore
  import opened ReceiverPlans

  // ---- The store across failures and reopenings ----

  /** The directory, the file in it, and the running store, if any. */
  datatype System = System(directory: bool, file: Option<State>, running: Option<Memory>)

  /** An operation with the fate of its save, or a (re)start of the process; a crash is a lost save, or nothing, and
      then a restart. */
  datatype Step = Operate(op: Op, outcome: SaveOutcome) | Open(identity: Identity, created: SaveOutcome)

  datatype After = After(system: System, response: Response)

  predicate UsableIdentity(i: Identity) {
    IsKey(i.receiverKey) && Ipv4(i.receiverAddress).Some? && PoolRange(i.pool).Some?
  }

  /** `ReceiverState.open` */
  ghost function OpenEffect(y: System, identity: Identity, outcome: SaveOutcome): After {
    if !UsableIdentity(identity) then After(y.(running := None), Failed(CannotOpen))
    else if !y.directory then
      var empty := State(identity, [], []);
      var e := SaveEffect(y.file, Memory(empty, false), empty, Done, outcome);
      After(System(true, e.file, if e.response.Done? then Some(e.memory) else None), e.response)
    else OpenExisting(y, identity)
  }

  ghost function OpenExisting(y: System, identity: Identity): After {
    if y.file.Some? && y.file.value.identity == identity && WellFormed(y.file.value) then
      After(y.(running := Some(Memory(y.file.value, false))), Done)
    else After(y.(running := None), Failed(CannotOpen))
  }

  method OpenStore(digest: string -> string, file: StateFile, directory: bool, identity: Identity, outcome: SaveOutcome)
    returns (store: ReceiverState?, r: Response)
    modifies file
    ensures After(System(directory || UsableIdentity(identity), file.contents,
                         if store == null then None else Some(Memory(store.state, store.failed))), r)
            == OpenEffect(System(directory, old(file.contents), None), identity, outcome)
    ensures store != null ==> fresh(store) && store.file == file && store.digest == digest
  {
    if !IsKey(identity.receiverKey) { return null, Failed(CannotOpen); }
    if Ipv4(identity.receiverAddress).None? || PoolRange(identity.pool).None? { return null, Failed(CannotOpen); }
    if !directory {
      var empty := State(identity, [], []);
      store := new ReceiverState(digest, file, empty);
      var error := store.SaveState(empty, outcome);
      if error.Some? { return null, Failed(error.value); }
      return store, Done;
    }
    if file.contents.None? { return null, Failed(CannotOpen); }
    var ok := Validate(file.contents.value, identity);
    if !ok { return null, Failed(CannotOpen); }
    store := new ReceiverState(digest, file, file.contents.value);
    return store, Done;
  }

  ghost function Next(digest: string -> string, y: System, step: Step): After {
    match step
    case Open(identity, outcome) => OpenEffect(y, identity, outcome)
    case Operate(op, outcome) =>
      if y.running.None? then After(y, Failed(StorageFailure))
      else
        var e := Perform(digest, y.file, y.running.value, op, outcome);
        After(System(y.directory, e.file, Some(e.memory)), e.response)
  }

  datatype Run = Run(steps: seq<Step>, systems: seq<System>, responses: seq<Response>)

  ghost predicate StepHolds(digest: string -> string, r: Run, n: nat)
    requires n < |r.steps| && |r.systems| == |r.steps| + 1 && |r.responses| == |r.steps|
  {
    After(r.systems[n + 1], r.responses[n]) == Next(digest, r.systems[n], r.steps[n])
  }

  ghost predicate IsRun(digest: string -> string, r: Run) {
    && |r.systems| == |r.steps| + 1 && |r.responses| == |r.steps|
    && r.systems[0] == System(false, None, None)
    && forall n | 0 <= n < |r.steps| :: StepHolds(digest, r, n)
  }

  predicate Creates(step: Step) {
    step.Operate? && step.op.CreateInvitation?
  }

  /** Fresh secrets: well formed, and no secret is drawn twice. */
  ghost predicate FreshSecrets(r: Run) {
    && (forall i | 0 <= i < |r.steps| && Creates(r.steps[i]) :: IsKey(r.steps[i].op.secret))
    && (forall i, j | 0 <= i < j < |r.steps| && Creates(r.steps[i]) && Creates(r.steps[j]) ::
          r.steps[i].op.secret != r.steps[j].op.secret)
  }

  /** The digest maps keys to keys, injectively. */
  ghost predicate SoundDigest(digest: string -> string) {
    && (forall x | IsKey(x) :: IsKey(digest(x)))
    && (forall x, y | IsKey(x) && IsKey(y) && digest(x) == digest(y) :: x == y)
  }

  /** The stored invitation stems from step `c`. */
  ghost predicate CreatedBy(digest: string -> string, r: Run, c: nat, p: Pending)
    requires c < |r.steps|
  {
    && Creates(r.steps[c]) && p.digest == digest(r.steps[c].op.secret)
    && p.issuedAt == r.steps[c].op.now && p.expiresAt == p.issuedAt + TTL
  }

  // ---- What every step keeps ----

  /** The state in the file and the state in memory, as far as there are any. */
  ghost predicate EveryState(y: System, good: State -> bool) {
    (y.file.Some? ==> good(y.file.value)) && (y.running.Some? ==> good(y.running.value.state))
  }

  /** What an operation can leave in the file and in memory: what was there, or the planned state. */
  lemma OperateLeaves(digest: string -> string, y: System, op: Op, outcome: SaveOutcome)
    requires y.running.Some?
    ensures var z, plan := Next(digest, y, Operate(op, outcome)).system, PlanOf(digest, y.running.value.state, op);
            && z.directory == y.directory
            && (z.file == y.file || (plan.Save? && z.file == Some(plan.next)))
            && z.running.Some?
            && (z.running.value.state == y.running.value.state || (plan.Save? && z.running.value.state == plan.next))
            && (!y.running.value.failed && !z.running.value.failed && y.file == Some(y.running.value.state) ==>
                  z.file == Some(z.running.value.state))
            && (y.running.value.failed ==> z.running.value.failed)
            && (y.file.Some? ==> z.file.Some?)
  {
  }

  lemma OperateKeepsStates(digest: string -> string, y: System, op: Op, outcome: SaveOutcome, good: State -> bool)
    requires EveryState(y, good)
    requires y.running.Some? && PlanOf(digest, y.running.value.state, op).Save? ==>
               good(PlanOf(digest, y.running.value.state, op).next)
    ensures EveryState(Next(digest, y, Operate(op, outcome)).system, good)
  {
    if y.running.Some? {
      OperateLeaves(digest, y, op, outcome);
    }
  }

  /** What an opening can leave in the file and in memory: what was in the file, or the empty state. */
  lemma OpenLeaves(y: System, identity: Identity, outcome: SaveOutcome)
    ensures var z, empty := OpenEffect(y, identity, outcome).system, State(identity, [], []);
            && (z.file == y.file || (UsableIdentity(identity) && z.file == Some(empty)))
            && (z.running.Some? ==>
                  || (y.file.Some? && z.running.value.state == y.file.value)
                  || (UsableIdentity(identity) && z.running.value.state == empty))
  {
  }

  lemma OpenKeepsStates(y: System, identity: Identity, outcome: SaveOutcome, good: State -> bool)
    requires EveryState(y, good) && (UsableIdentity(identity) ==> good(State(identity, [], [])))
    ensures EveryState(OpenEffect(y, identity, outcome).system, good)
  {
    OpenLeaves(y, identity, outcome);
  }

  /** A running store has a file of its own identity; and unless a save has failed, the file is the memory. */
  ghost predicate Coherent(y: System) {
    && (y.file.Some? ==> y.directory)
    && (y.running.Some? ==>
          && y.file.Some? && y.file.value.identity == y.running.value.state.identity
          && (!y.running.value.failed ==> y.file == Some(y.running.value.state)))
  }

  lemma OperateCoherent(digest: string -> string, y: System, op: Op, outcome: SaveOutcome)
    requires Coherent(y)
    ensures Coherent(Next(digest, y, Operate(op, outcome)).system)
  {
    if y.running.Some? {
      OperateLeaves(digest, y, op, outcome);
      if PlanOf(digest, y.running.value.state, op).Save? {
        PlanKeepsIdentity(digest, y.running.value.state, op);
      }
    }
  }

  lemma OpenCoherent(y: System, identity: Identity, outcome: SaveOutcome)
    requires Coherent(y)
    ensures Coherent(OpenEffect(y, identity, outcome).system)
  {
  }

  lemma CoherentNext(digest: string -> string, r: Run, m: nat, n: nat)
    requires IsRun(digest, r) && m < |r.steps| && n == m + 1 && Coherent(r.systems[m])
    ensures Coherent(r.systems[n])
  {
    assert StepHolds(digest, r, m);
    match r.steps[m]
    case Open(identity, created) => OpenCoherent(r.systems[m], identity, created);
    case Operate(op, outcome) => OperateCoherent(digest, r.systems[m], op, outcome);
  }

  lemma {:induction false} ReachableCoherent(digest: string -> string, r: Run, n: nat)
    requires IsRun(digest, r) && n <= |r.steps|
    ensures Coherent(r.systems[n])
  {
    if n > 0 {
      var m: nat := n - 1;
      ReachableCoherent(digest, r, m);
      CoherentNext(digest, r, m, n);
    }
  }

  // ---- Where invitations come from ----

  /** Every invitation of the state stems from one of the first `n` steps. */
  ghost predicate Provenance(digest: string -> string, r: Run, n: nat, s: State) {
    forall p | p in s.invitations :: exists c: nat :: c < n && c < |r.steps| && CreatedBy(digest, r, c, p)
  }

  lemma ProvenanceLater(digest: string -> string, r: Run, m: nat, n: nat, s: State)
    requires Provenance(digest, r, m, s) && m <= n
    ensures Provenance(digest, r, n, s)
  {
    forall p | p in s.invitations ensures exists c: nat :: c < n && c < |r.steps| && CreatedBy(digest, r, c, p) {
      var c: nat :| c < m && c < |r.steps| && CreatedBy(digest, r, c, p);
    }
  }

  lemma PlanProvenance(digest: string -> string, r: Run, m: nat, s: State)
    requires m < |r.steps| && r.steps[m].Operate? && Provenance(digest, r, m, s)
    requires PlanOf(digest, s, r.steps[m].op).Save?
    ensures Provenance(digest, r, m + 1, PlanOf(digest, s, r.steps[m].op).next)
  {
    var next := PlanOf(digest, s, r.steps[m].op).next;
    PlanInvitations(digest, s, r.steps[m].op);
    forall p | p in next.invitations ensures exists c: nat :: c < m + 1 && c < |r.steps| && CreatedBy(digest, r, c, p) {
      if p in s.invitations {
        var c: nat :| c < m && c < |r.steps| && CreatedBy(digest, r, c, p);
      } else {
        assert CreatedBy(digest, r, m, p);
      }
    }
  }

  ghost predicate AllStem(digest: string -> string, r: Run, n: nat, y: System) {
    EveryState(y, s => Provenance(digest, r, n, s))
  }

  lemma AllStemLater(digest: string -> string, r: Run, m: nat, n: nat, y: System)
    requires AllStem(digest, r, m, y) && m <= n
    ensures AllStem(digest, r, n, y)
  {
    if y.file.Some? { ProvenanceLater(digest, r, m, n, y.file.value); }
    if y.running.Some? { ProvenanceLater(digest, r, m, n, y.running.value.state); }
  }

  lemma AllStemNext(digest: string -> string, r: Run, m: nat, n: nat)
    requires IsRun(digest, r) && m < |r.steps| && n == m + 1 && AllStem(digest, r, m, r.systems[m])
    ensures AllStem(digest, r, n, r.systems[n])
  {
    assert StepHolds(digest, r, m);
    var y, stem := r.systems[m], s => Provenance(digest, r, n, s);
    AllStemLater(digest, r, m, n, y);
    match r.steps[m]
    case Open(identity, created) => OpenKeepsStates(y, identity, created, stem);
    case Operate(op, outcome) =>
      if y.running.Some? && PlanOf(digest, y.running.value.state, op).Save? {
        PlanProvenance(digest, r, m, y.running.value.state);
      }
      OperateKeepsStates(digest, y, op, outcome, stem);
  }

  lemma {:induction false} ReachableStems(digest: string -> string, r: Run, n: nat)
    requires IsRun(digest, r) && n <= |r.steps|
    ensures AllStem(digest, r, n, r.systems[n])
  {
    if n > 0 {
      var m: nat := n - 1;
      ReachableStems(digest, r, m);
      AllStemNext(digest, r, m, n);
    }
  }

  // ---- Validity ----

  ghost predicate Valid(s: State) {
    UsableIdentity(s.identity) && WellFormed(s)
  }

  /** No stored invitation has a digest that is only now being created. */
  lemma DigestIsFresh(digest: string -> string, r: Run, n: nat, s: State)
    requires SoundDigest(digest) && FreshSecrets(r) && n < |r.steps| && Creates(r.steps[n])
    requires Provenance(digest, r, n, s)
    ensures FreshDigest(s, digest(r.steps[n].op.secret))
  {
    forall i | 0 <= i < |s.invitations| ensures s.invitations[i].digest != digest(r.steps[n].op.secret) {
      assert s.invitations[i] in s.invitations;
      var c: nat :| c < n && CreatedBy(digest, r, c, s.invitations[i]);
    }
  }

  lemma PlanKeepsStateValid(digest: string -> string, s: State, op: Op)
    requires Valid(s) && (op.CreateInvitation? ==> FreshDigest(s, digest(op.secret)))
    ensures PlanOf(digest, s, op).Save? ==> Valid(PlanOf(digest, s, op).next)
  {
    PlanKeepsValid(digest, s, op);
  }

  lemma EmptyIsValid(identity: Identity)
    requires UsableIdentity(identity)
    ensures Valid(State(identity, [], []))
  {
  }

  lemma ValidNext(digest: string -> string, r: Run, m: nat, n: nat)
    requires IsRun(digest, r) && SoundDigest(digest) && FreshSecrets(r) && m < |r.steps| && n == m + 1
    requires EveryState(r.systems[m], s => Valid(s))
    ensures EveryState(r.systems[n], s => Valid(s))
  {
    assert StepHolds(digest, r, m);
    var y := r.systems[m];
    match r.steps[m]
    case Open(identity, created) =>
      if UsableIdentity(identity) { EmptyIsValid(identity); }
      OpenKeepsStates(y, identity, created, s => Valid(s));
    case Operate(op, outcome) =>
      if y.running.Some? {
        ReachableStems(digest, r, m);
        if op.CreateInvitation? { DigestIsFresh(digest, r, m, y.running.value.state); }
        PlanKeepsStateValid(digest, y.running.value.state, op);
      }
      OperateKeepsStates(digest, y, op, outcome, s => Valid(s));
  }

  lemma {:induction false} ReachableValid(digest: string -> string, r: Run, n: nat)
    requires IsRun(digest, r) && SoundDigest(digest) && FreshSecrets(r) && n <= |r.steps|
    ensures EveryState(r.systems[n], s => Valid(s))
  {
    if n > 0 {
      var m: nat := n - 1;
      ReachableValid(digest, r, m);
      ValidNext(digest, r, m, n);
    }
  }

  /** Every reachable state, in the file and in memory, passes `validate` and has invitations that were really created;
      and unless a save has failed, the file is the memory. */
  lemma ReachableGood(digest: string -> string, r: Run, n: nat)
    requires IsRun(digest, r) && SoundDigest(digest) && FreshSecrets(r) && n <= |r.steps|
    ensures EveryState(r.systems[n], s => Valid(s)) && AllStem(digest, r, n, r.systems[n]) && Coherent(r.systems[n])
  {
    ReachableValid(digest, r, n);
    ReachableStems(digest, r, n);
    ReachableCoherent(digest, r, n);
  }

  /** Opening after any step with the receiver's own identity succeeds once the file exists, and reads exactly that
      file; if no save has failed, that is the state the store had in memory. */
  lemma ReopenReturnsTheState(digest: string -> string, r: Run, n: nat, outcome: SaveOutcome)
    requires IsRun(digest, r) && SoundDigest(digest) && FreshSecrets(r) && n <= |r.steps|
    requires r.systems[n].running.Some?
    ensures var y := r.systems[n];
            var after := OpenEffect(y, y.running.value.state.identity, outcome);
            && y.file.Some?
            && after == After(y.(running := Some(Memory(y.file.value, false))), Done)
            && (!y.running.value.failed ==> after.system.running == y.running)
  {
    ReachableValid(digest, r, n);
    ReachableCoherent(digest, r, n);
  }

  // ---- Single use ----

  /** Step `n` answered an enrollment of `key` with a device. */
  ghost predicate Succeeds(r: Run, n: nat, key: string, secret: string, device: Device)
    requires n < |r.steps| && |r.responses| == |r.steps|
  {
    && r.steps[n].Operate? && r.steps[n].op.Enroll?
    && r.steps[n].op.publicKey == key && r.steps[n].op.enrollSecret == secret
    && r.responses[n] == Enrolled(device)
  }

  ghost predicate NoDigest(s: State, hash: string) {
    forall p | p in s.invitations :: p.digest != hash
  }

  /** The digest is stored nowhere any more. */
  ghost predicate Gone(y: System, hash: string) {
    EveryState(y, s => NoDigest(s, hash))
  }

  /** A device is only answered after a save of the planned state. */
  lemma EnrolledWasPlanned(digest: string -> string, y: System, key: string, secret: string, at: Instant,
                           outcome: SaveOutcome)
    requires Next(digest, y, Operate(Enroll(key, secret, at), outcome)).response.Enrolled?
    ensures y.running.Some?
    ensures var after := Next(digest, y, Operate(Enroll(key, secret, at), outcome));
            var plan := PlanEnrollment(digest, y.running.value.state, key, secret, at);
            && plan.Save? && plan.afterwards == after.response
            && after.system.file == Some(plan.next) && after.system.running == Some(Memory(plan.next, false))
  {
  }

  /** What is planned for a secret: a live invitation with its digest goes, and no other has it. */
  lemma PlannedIsSpent(digest: string -> string, s: State, key: string, secret: string, at: Instant) returns (i: nat)
    requires DistinctInvitations(s.invitations) && PlanEnrollment(digest, s, key, secret, at).Save?
    ensures i < |s.invitations| && s.invitations[i] in s.invitations
    ensures s.invitations[i].digest == digest(secret) && Live(s.invitations[i], at) && IsKey(secret)
    ensures NoDigest(PlanEnrollment(digest, s, key, secret, at).next, digest(secret))
  {
    i := EnrollmentFacts(digest, s, key, secret, at);
    SpentIsGone(s.invitations, i, at);
  }

  lemma PlannedDeviceIsSaved(digest: string -> string, s: State, key: string, secret: string, at: Instant)
    requires PlanEnrollment(digest, s, key, secret, at).Save?
    ensures var p := PlanEnrollment(digest, s, key, secret, at);
            p.afterwards.Enrolled? && p.afterwards.device in p.next.devices && p.afterwards.device.publicKey == key
  {
    var i := EnrollmentFacts(digest, s, key, secret, at);
  }

  lemma StoredInvitationStems(digest: string -> string, r: Run, n: nat, s: State, i: nat, secret: string, at: Instant)
    returns (c: nat)
    requires SoundDigest(digest) && FreshSecrets(r) && n <= |r.steps| && Provenance(digest, r, n, s) && IsKey(secret)
    requires i < |s.invitations| && s.invitations[i] in s.invitations
    requires s.invitations[i].digest == digest(secret) && Live(s.invitations[i], at)
    ensures c < n && Creates(r.steps[c]) && r.steps[c].op.secret == secret
    ensures r.steps[c].op.now <= at < r.steps[c].op.now + TTL
  {
    c :| c < n && CreatedBy(digest, r, c, s.invitations[i]);
  }

  lemma RunningIsDistinct(digest: string -> string, r: Run, n: nat)
    requires IsRun(digest, r) && SoundDigest(digest) && FreshSecrets(r) && n <= |r.steps| && r.systems[n].running.Some?
    ensures DistinctInvitations(r.systems[n].running.value.state.invitations)
  {
    ReachableValid(digest, r, n);
    assert Valid(r.systems[n].running.value.state);
  }

  lemma RunningStems(digest: string -> string, r: Run, n: nat)
    requires IsRun(digest, r) && n <= |r.steps| && r.systems[n].running.Some?
    ensures Provenance(digest, r, n, r.systems[n].running.value.state)
  {
    ReachableStems(digest, r, n);
  }

  /** What a successful enrollment means at its own step: a live invitation made from its secret is spent, the device is
      durably in the file, and the digest is gone from file and memory. */
  lemma SuccessFacts(digest: string -> string, r: Run, n: nat, key: string, secret: string, device: Device)
      returns (c: nat)
    requires IsRun(digest, r) && SoundDigest(digest) && FreshSecrets(r) && n < |r.steps|
    requires Succeeds(r, n, key, secret, device)
    ensures c < n && Creates(r.steps[c]) && r.steps[c].op.secret == secret
    ensures r.steps[c].op.now <= r.steps[n].op.at < r.steps[c].op.now + 600_000
    ensures r.systems[n + 1].file.Some? && device in r.systems[n + 1].file.value.devices && device.publicKey == key
    ensures Gone(r.systems[n + 1], digest(secret))
  {
    assert StepHolds(digest, r, n);
    var at := r.steps[n].op.at;
    EnrolledWasPlanned(digest, r.systems[n], key, secret, at, r.steps[n].outcome);
    var s := r.systems[n].running.value.state;
    RunningIsDistinct(digest, r, n);
    RunningStems(digest, r, n);
    var i := PlannedIsSpent(digest, s, key, secret, at);
    PlannedDeviceIsSaved(digest, s, key, secret, at);
    c := StoredInvitationStems(digest, r, n, s, i, secret, at);
  }

  lemma PlanKeepsGone(digest: string -> string, s: State, op: Op, hash: string)
    requires NoDigest(s, hash) && (op.CreateInvitation? ==> digest(op.secret) != hash)
    ensures PlanOf(digest, s, op).Save? ==> NoDigest(PlanOf(digest, s, op).next, hash)
  {
    if PlanOf(digest, s, op).Save? {
      PlanInvitations(digest, s, op);
    }
  }

  lemma GoneNext(digest: string -> string, r: Run, c: nat, m: nat, n: nat)
    requires IsRun(digest, r) && SoundDigest(digest) && FreshSecrets(r)
    requires c < m < |r.steps| && n == m + 1 && Creates(r.steps[c])
    requires Gone(r.systems[m], digest(r.steps[c].op.secret))
    ensures Gone(r.systems[n], digest(r.steps[c].op.secret))
  {
    assert StepHolds(digest, r, m);
    var y, hash := r.systems[m], digest(r.steps[c].op.secret);
    match r.steps[m]
    case Open(identity, created) => OpenKeepsStates(y, identity, created, s => NoDigest(s, hash));
    case Operate(op, outcome) =>
      if y.running.Some? { PlanKeepsGone(digest, y.running.value.state, op, hash); }
      OperateKeepsStates(digest, y, op, outcome, s => NoDigest(s, hash));
  }

  lemma {:induction false} GoneStaysGone(digest: string -> string, r: Run, c: nat, a: nat, b: nat)
    requires IsRun(digest, r) && SoundDigest(digest) && FreshSecrets(r)
    requires c < a <= b <= |r.steps| && Creates(r.steps[c])
    requires Gone(r.systems[a], digest(r.steps[c].op.secret))
    ensures Gone(r.systems[b], digest(r.steps[c].op.secret))
    decreases b
  {
    if a < b {
      var m: nat := b - 1;
      GoneStaysGone(digest, r, c, a, m);
      GoneNext(digest, r, c, m, b);
    }
  }

  lemma GoneIsRefused(digest: string -> string, y: System, key: string, secret: string, at: Instant,
                      outcome: SaveOutcome)
    requires Gone(y, digest(secret))
    ensures !Next(digest, y, Operate(Enroll(key, secret, at), outcome)).response.Enrolled?
  {
    if y.running.Some? && PlanEnrollment(digest, y.running.value.state, key, secret, at).Save? {
      var i := EnrollmentFacts(digest, y.running.value.state, key, secret, at);
    }
  }

  /** Single use: over every run of operations, failed saves and reopenings, a secret yields at most one successful
      enrollment. */
  lemma SecretIsUsedAtMostOnce(digest: string -> string, r: Run, i: nat, j: nat, secret: string,
                               key: string, device: Device, key': string, device': Device)
    requires IsRun(digest, r) && SoundDigest(digest) && FreshSecrets(r) && i <= j < |r.steps|
    requires Succeeds(r, i, key, secret, device) && Succeeds(r, j, key', secret, device')
    ensures i == j
  {
    if i < j {
      var c := SuccessFacts(digest, r, i, key, secret, device);
      GoneStaysGone(digest, r, c, i + 1, j);
      assert StepHolds(digest, r, j);
      GoneIsRefused(digest, r.systems[j], key', secret, r.steps[j].op.at, r.steps[j].outcome);
    }
  }

  // ---- Devices across steps ----

  ghost predicate Unrevoked(r: Run, a: nat, b: nat, key: string)
    requires b <= |r.steps|
  {
    forall n | a <= n < b && r.steps[n].Operate? :: !Revokes(r.steps[n].op, key)
  }

  ghost predicate Ungranted(r: Run, a: nat, b: nat, key: string)
    requires b <= |r.steps|
  {
    forall n | a <= n < b && r.steps[n].Operate? :: !Grants(r.steps[n].op, key)
  }

  lemma OperateKeepsDevice(digest: string -> string, y: System, op: Op, outcome: SaveOutcome, d: Device)
    requires Coherent(y) && y.file.Some? && d in y.file.value.devices && !Revokes(op, d.publicKey)
    ensures var z := Next(digest, y, Operate(op, outcome)).system;
            && z.file.Some? && HasKeyAndAddress(z.file.value, d)
            && (!Grants(op, d.publicKey) ==> d in z.file.value.devices)
  {
    if y.running.Some? && !y.running.value.failed && PlanOf(digest, y.running.value.state, op).Save? {
      PlanKeepsDevice(digest, y.running.value.state, op, d);
    }
  }

  lemma OpenKeepsFile(y: System, identity: Identity, outcome: SaveOutcome)
    requires y.directory
    ensures OpenEffect(y, identity, outcome).system.file == y.file
  {
  }

  lemma DeviceStep(digest: string -> string, r: Run, n: nat, d: Device)
    requires IsRun(digest, r) && n < |r.steps|
    requires r.systems[n].file.Some? && d in r.systems[n].file.value.devices
    requires r.steps[n].Operate? ==> !Revokes(r.steps[n].op, d.publicKey)
    ensures r.systems[n + 1].file.Some? && HasKeyAndAddress(r.systems[n + 1].file.value, d)
    ensures !(r.steps[n].Operate? && Grants(r.steps[n].op, d.publicKey)) ==> d in r.systems[n + 1].file.value.devices
  {
    ReachableCoherent(digest, r, n);
    assert StepHolds(digest, r, n);
    match r.steps[n]
    case Open(identity, created) => OpenKeepsFile(r.systems[n], identity, created);
    case Operate(op, outcome) => OperateKeepsDevice(digest, r.systems[n], op, outcome, d);
  }

  /** From enrollment to revocation a device keeps its address in the file, through failed saves and reopenings; it
      keeps its grant too unless a grant for it is asked for. */
  lemma {:induction false} DeviceKeepsAddress(digest: string -> string, r: Run, a: nat, b: nat, d: Device)
    requires IsRun(digest, r) && a <= b <= |r.steps|
    requires r.systems[a].file.Some? && d in r.systems[a].file.value.devices && Unrevoked(r, a, b, d.publicKey)
    ensures r.systems[b].file.Some? && HasKeyAndAddress(r.systems[b].file.value, d)
    ensures Ungranted(r, a, b, d.publicKey) ==> d in r.systems[b].file.value.devices
    decreases b
  {
    if a < b {
      var m: nat := b - 1;
      DeviceKeepsAddress(digest, r, a, m, d);
      var x :| x in r.systems[m].file.value.devices && x.publicKey == d.publicKey && x.address == d.address;
      DeviceStep(digest, r, m, x);
      if Ungranted(r, a, b, d.publicKey) {
        DeviceStep(digest, r, m, d);
      }
    }
  }

  lemma OpenReadsFile(y: System, identity: Identity, outcome: SaveOutcome)
    requires OpenEffect(y, identity, outcome).response.Done?
    ensures var z := OpenEffect(y, identity, outcome).system;
            z.running.Some? && !z.running.value.failed && z.file == Some(z.running.value.state)
  {
  }

  /** Durability: a device that was answered to an enrollment is in the file ever after, until it is revoked; so any
      later opening reads it. */
  lemma SuccessIsDurable(digest: string -> string, r: Run, n: nat, m: nat, key: string, secret: string, device: Device)
    requires IsRun(digest, r) && SoundDigest(digest) && FreshSecrets(r) && n < m <= |r.steps|
    requires Succeeds(r, n, key, secret, device) && Unrevoked(r, n + 1, m, key)
    ensures r.systems[m].file.Some? && HasKeyAndAddress(r.systems[m].file.value, device)
    ensures r.steps[m - 1].Open? && r.responses[m - 1].Done? ==>
              r.systems[m].running.Some? && HasKeyAndAddress(r.systems[m].running.value.state, device)
  {
    var c := SuccessFacts(digest, r, n, key, secret, device);
    DeviceKeepsAddress(digest, r, n + 1, m, device);
    if r.steps[m - 1].Open? && r.responses[m - 1].Done? {
      assert StepHolds(digest, r, m - 1);
      OpenReadsFile(r.systems[m - 1], r.steps[m - 1].identity, r.steps[m - 1].created);
    }
  }
}
