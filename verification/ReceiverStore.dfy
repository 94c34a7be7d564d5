/** The managed receiver's state: invitations, devices, and an atomic save that can fail on either side of the
    rename. */
module ReceiverStore {
  import opened Common
  import opened Addresses

  const TTL := 10 * 60_000
  const MAX_DEVICES := 16
  const MAX_INVITATIONS := 16
  const MAX_PORTS := 256
  const MAX_SAFE_INTEGER := 0x1F_FFFF_FFFF_FFFF

  /** What `Date.now` can return. */
  type Instant = t: int | -8_640_000_000_000_000 <= t <= 8_640_000_000_000_000

  datatype PortGrant = AllPorts | Ports(ports: seq<int>)
  datatype Device = Device(publicKey: string, address: string, allowTcp: PortGrant)
  datatype Pending = Pending(digest: string, issuedAt: int, expiresAt: int, excludeAddress: Option<string>)
  datatype Identity = Identity(receiverKey: string, receiverAddress: string, pool: string)
  datatype State = State(identity: Identity, devices: seq<Device>, invitations: seq<Pending>)

  predicate IsKey(s: string) {
    |s| == 64 && forall i | 0 <= i < |s| :: '0' <= s[i] <= '9' || 'a' <= s[i] <= 'f'
  }

  /** `checkedPorts` accepts the grant. */
  predicate ValidGrant(g: PortGrant) {
    g.Ports? ==>
      && |g.ports| <= MAX_PORTS
      && (forall i | 0 <= i < |g.ports| :: 1 <= g.ports[i] <= 65535)
      && (forall i, j | 0 <= i < j < |g.ports| :: g.ports[i] != g.ports[j])
  }

  /** `validExclusion` */
  predicate ValidExclusion(value: string, receiverAddress: string, range: Range) {
    Ipv4(value).Some? && value != receiverAddress && range.Contains(Ipv4(value).value)
  }

  predicate DeviceFits(d: Device, range: Range) {
    IsKey(d.publicKey) && Ipv4(d.address).Some? && range.Contains(Ipv4(d.address).value) && ValidGrant(d.allowTcp)
  }

  predicate ValidDevice(d: Device, identity: Identity, range: Range) {
    DeviceFits(d, range) && d.publicKey != identity.receiverKey && d.address != identity.receiverAddress
  }

  predicate ValidPending(p: Pending, identity: Identity, range: Range) {
    && IsKey(p.digest) && -MAX_SAFE_INTEGER <= p.issuedAt <= MAX_SAFE_INTEGER && p.expiresAt == p.issuedAt + TTL
    && (p.excludeAddress.Some? ==> ValidExclusion(p.excludeAddress.value, identity.receiverAddress, range))
  }

  ghost predicate DistinctDevices(d: seq<Device>) {
    forall i, j | 0 <= i < j < |d| :: d[i].publicKey != d[j].publicKey && d[i].address != d[j].address
  }

  ghost predicate DistinctInvitations(v: seq<Pending>) {
    forall i, j | 0 <= i < j < |v| :: v[i].digest != v[j].digest
  }

  ghost predicate ValidDevices(d: seq<Device>, identity: Identity, range: Range) {
    (forall i | 0 <= i < |d| :: ValidDevice(d[i], identity, range)) && DistinctDevices(d)
  }

  ghost predicate ValidInvitations(v: seq<Pending>, identity: Identity, range: Range) {
    (forall i | 0 <= i < |v| :: ValidPending(v[i], identity, range)) && DistinctInvitations(v)
  }

  /** What `validate` demands of a stored state. */
  ghost predicate WellFormed(s: State) {
    && PoolRange(s.identity.pool).Some?
    && |s.devices| <= MAX_DEVICES && |s.invitations| <= MAX_INVITATIONS
    && ValidDevices(s.devices, s.identity, PoolRange(s.identity.pool).value)
    && ValidInvitations(s.invitations, s.identity, PoolRange(s.identity.pool).value)
  }

  /** The key or the address of device `n` is the receiver's or an earlier device's. */
  ghost predicate Clashes(d: seq<Device>, n: nat, identity: Identity)
    requires n < |d|
  {
    || d[n].publicKey == identity.receiverKey || d[n].address == identity.receiverAddress
    || exists i :: 0 <= i < n && (d[i].publicKey == d[n].publicKey || d[i].address == d[n].address)
  }

  /** The first `n` devices are acceptable. */
  ghost predicate Checked(d: seq<Device>, n: nat, identity: Identity, range: Range)
    requires n <= |d|
  {
    forall i | 0 <= i < n :: DeviceFits(d[i], range) && !Clashes(d, i, identity)
  }

  lemma CheckedAll(d: seq<Device>, identity: Identity, range: Range)
    ensures Checked(d, |d|, identity, range) <==> ValidDevices(d, identity, range)
  {
    if Checked(d, |d|, identity, range) {
      forall i, j | 0 <= i < j < |d| ensures d[i].publicKey != d[j].publicKey && d[i].address != d[j].address {
        assert !Clashes(d, j, identity);
      }
      forall i | 0 <= i < |d| ensures ValidDevice(d[i], identity, range) {
        assert !Clashes(d, i, identity);
      }
    }
    if ValidDevices(d, identity, range) {
      forall i | 0 <= i < |d| ensures DeviceFits(d[i], range) && !Clashes(d, i, identity) {
        assert ValidDevice(d[i], identity, range);
      }
    }
  }

  /** The keys and the addresses that a device after the first `n` must not have. */
  ghost function UsedKeys(d: seq<Device>, n: nat, identity: Identity): set<string>
    requires n <= |d|
  {
    {identity.receiverKey} + set i | 0 <= i < n :: d[i].publicKey
  }

  ghost function UsedAddresses(d: seq<Device>, n: nat, identity: Identity): set<string>
    requires n <= |d|
  {
    {identity.receiverAddress} + set i | 0 <= i < n :: d[i].address
  }

  lemma UsedMeansClash(d: seq<Device>, n: nat, identity: Identity)
    requires n < |d|
    ensures Clashes(d, n, identity)
            <==> d[n].publicKey in UsedKeys(d, n, identity) || d[n].address in UsedAddresses(d, n, identity)
    ensures UsedKeys(d, n + 1, identity) == UsedKeys(d, n, identity) + {d[n].publicKey}
    ensures UsedAddresses(d, n + 1, identity) == UsedAddresses(d, n, identity) + {d[n].address}
  {
  }

  /** The part of `validate` over devices, with the sets it fills along the way. */
  method CheckDevices(d: seq<Device>, identity: Identity, range: Range) returns (ok: bool)
    ensures ok <==> ValidDevices(d, identity, range)
  {
    CheckedAll(d, identity, range);
    var addresses := {identity.receiverAddress};
    var deviceKeys := {identity.receiverKey};
    for n := 0 to |d|
      invariant Checked(d, n, identity, range)
      invariant addresses == UsedAddresses(d, n, identity)
      invariant deviceKeys == UsedKeys(d, n, identity)
    {
      UsedMeansClash(d, n, identity);
      if d[n].publicKey in deviceKeys || d[n].address in addresses || !DeviceFits(d[n], range) { return false; }
      deviceKeys := deviceKeys + {d[n].publicKey};
      addresses := addresses + {d[n].address};
    }
    return true;
  }

  method CheckInvitations(v: seq<Pending>, identity: Identity, range: Range) returns (ok: bool)
    ensures ok <==> ValidInvitations(v, identity, range)
  {
    var hashes := {};
    for n := 0 to |v|
      invariant ValidInvitations(v[..n], identity, range)
      invariant forall h :: h in hashes <==> exists i :: 0 <= i < n && v[i].digest == h
    {
      if v[n].digest in hashes || !ValidPending(v[n], identity, range) { return false; }
      hashes := hashes + {v[n].digest};
      assert v[..n + 1] == v[..n] + [v[n]];
    }
    assert v[..|v|] == v;
    return true;
  }

  /** `validate` */
  method Validate(s: State, identity: Identity) returns (ok: bool)
    ensures ok <==> s.identity == identity && WellFormed(s)
  {
    if s.identity != identity || |s.devices| > MAX_DEVICES || |s.invitations| > MAX_INVITATIONS { return false; }
    var range := PoolRange(identity.pool);
    if range.None? { return false; }
    ok := CheckDevices(s.devices, identity, range.value);
    if ok {
      ok := CheckInvitations(s.invitations, identity, range.value);
    }
  }

  // ---- Operations ----

  datatype Rejection = Capacity | Pool | Route | Excluded

  datatype Failure =
    | StorageFailure                // `ReceiverStorageError`
    | CleanupFailure                // the temporary file could not be removed
    | ExclusionInvalid | ExclusionAllocated | TooManyInvitations
    | Unusable | Rejected(reason: Rejection)
    | InvalidGrant | UnknownDevice
    | Ended                         // the stream or the receiver closed before the enrollment began
    | CannotOpen

  datatype Response =
    | Devices(devices: seq<Device>)
    | Invitation(secret: string)
    | Enrolled(device: Device)
    | Done
    | Failed(failure: Failure)

  datatype Op =
    | List
    | CreateInvitation(excludeAddress: Option<string>, secret: string, now: Instant)
    | Enroll(publicKey: string, enrollSecret: string, at: Instant)
    | SetGrant(grantKey: string, ports: PortGrant)
    | Revoke(revokeKey: string)

  /** What an operation wants: an answer at once, or a save and then an answer. */
  datatype Plan = Answer(response: Response) | Save(next: State, afterwards: Response)

  predicate Live(p: Pending, now: int) {
    p.issuedAt <= now < p.expiresAt
  }

  function LiveOnly(v: seq<Pending>, now: int): seq<Pending> {
    if v == [] then []
    else if Live(v[0], now) then [v[0]] + LiveOnly(v[1..], now)
    else LiveOnly(v[1..], now)
  }

  /** The first live invitation with this digest. */
  function FindInvitation(v: seq<Pending>, hash: string, now: int): Option<nat> {
    if v == [] then None
    else if v[0].digest == hash && Live(v[0], now) then Some(0)
    else
      var rest := FindInvitation(v[1..], hash, now);
      if rest.Some? then Some(rest.value + 1) else None
  }

  function FindDevice(d: seq<Device>, key: string): Option<Device> {
    if d == [] then None else if d[0].publicKey == key then Some(d[0]) else FindDevice(d[1..], key)
  }

  function HasAddress(d: seq<Device>, address: string): bool {
    exists i | 0 <= i < |d| :: d[i].address == address
  }

  function WithoutDevice(d: seq<Device>, key: string): seq<Device> {
    if d == [] then []
    else if d[0].publicKey == key then WithoutDevice(d[1..], key)
    else [d[0]] + WithoutDevice(d[1..], key)
  }

  function WithGrant(d: seq<Device>, key: string, g: PortGrant): (r: seq<Device>)
    ensures |r| == |d|
  {
    seq(|d|, i requires 0 <= i < |d| => if d[i].publicKey == key then d[i].(allowTcp := g) else d[i])
  }

  function Taken(s: State, exclude: Option<string>): set<string> {
    {s.identity.receiverAddress} + (set i | 0 <= i < |s.devices| :: s.devices[i].address)
    + if exclude.Some? && exclude.value != "" then {exclude.value} else {}
  }

  /** `address(n)`, on any integer. */
  function AddressText(n: int): string {
    if 0 <= n < TWO32 then Address(n) else ""
  }

  /** The allocator's scan: the text of the first number from `n` on whose text is not taken. */
  function FirstFree(text: int -> string, n: int, last: int, taken: set<string>): Option<string>
    decreases last - n
  {
    if n > last then None
    else if text(n) !in taken then Some(text(n))
    else FirstFree(text, n + 1, last, taken)
  }

  function PlanInvitation(digest: string -> string, s: State, exclude: Option<string>, secret: string,
                          now: Instant): Plan {
    var range := PoolRange(s.identity.pool);
    if exclude.Some? && !(range.Some? && ValidExclusion(exclude.value, s.identity.receiverAddress, range.value)) then
      Answer(Failed(ExclusionInvalid))
    else if exclude.Some? && HasAddress(s.devices, exclude.value) then Answer(Failed(ExclusionAllocated))
    else
      var invitations := LiveOnly(s.invitations, now);
      if |invitations| >= MAX_INVITATIONS then Answer(Failed(TooManyInvitations))
      else Save(s.(invitations := invitations + [Pending(digest(secret), now, now + TTL, exclude)]), Invitation(secret))
  }

  /** The device an enrollment ends up with, or why it is refused. */
  function PlanDevice(s: State, key: string, exclude: Option<string>): (r: Response)
    ensures r.Enrolled? || r.Failed?
  {
    var known := FindDevice(s.devices, key);
    if known.Some? then
      if Some(known.value.address) == exclude then Failed(Rejected(Excluded)) else Enrolled(known.value)
    else if |s.devices| >= MAX_DEVICES then Failed(Rejected(Capacity))
    else
      var range := PoolRange(s.identity.pool);
      var available := if range.Some?
        then FirstFree(AddressText, range.value.first, range.value.last, Taken(s, exclude)) else None;
      if available.None? then Failed(Rejected(Pool)) else Enrolled(Device(key, available.value, AllPorts))
  }

  function PlanEnrollment(digest: string -> string, s: State, key: string, secret: string, now: Instant): Plan {
    if !IsKey(key) || key == s.identity.receiverKey || !IsKey(secret) then Answer(Failed(Unusable))
    else
      var found := FindInvitation(s.invitations, digest(secret), now);
      if found.None? || found.value >= |s.invitations| then Answer(Failed(Unusable))
      else
        var i := found.value;
        var outcome := PlanDevice(s, key, s.invitations[i].excludeAddress);
        if outcome.Failed? then Answer(outcome)
        else
          var devices := if FindDevice(s.devices, key).Some? then s.devices else s.devices + [outcome.device];
          Save(s.(devices := devices, invitations := LiveOnly(s.invitations[..i] + s.invitations[i + 1..], now)),
               outcome)
  }

  function PlanGrant(s: State, key: string, ports: PortGrant): Plan {
    if !ValidGrant(ports) then Answer(Failed(InvalidGrant))
    else if FindDevice(s.devices, key).None? then Answer(Failed(UnknownDevice))
    else Save(s.(devices := WithGrant(s.devices, key, ports)), Done)
  }

  function PlanRevocation(s: State, key: string): Plan {
    if FindDevice(s.devices, key).None? then Answer(Failed(UnknownDevice))
    else Save(s.(devices := WithoutDevice(s.devices, key)), Done)
  }

  function PlanOf(digest: string -> string, s: State, op: Op): Plan {
    match op
    case List => Answer(Devices(s.devices))
    case CreateInvitation(exclude, secret, now) => PlanInvitation(digest, s, exclude, secret, now)
    case Enroll(key, secret, now) => PlanEnrollment(digest, s, key, secret, now)
    case SetGrant(key, ports) => PlanGrant(s, key, ports)
    case Revoke(key) => PlanRevocation(s, key)
  }

  /** How a save goes: durably done, or failed before or after the rename; in either case the temporary file may resist
      removal. */
  datatype SaveOutcome = Saved(cleaned: bool) | Lost(renamed: bool, cleaned: bool)

  /** A running store: its memory, and whether a save has failed. */
  datatype Memory = Memory(state: State, failed: bool)

  datatype Effect = Effect(file: Option<State>, memory: Memory, response: Response)

  function SaveEffect(file: Option<State>, m: Memory, next: State, afterwards: Response, outcome: SaveOutcome): Effect {
    match outcome
    case Saved(cleaned) => Effect(Some(next), m.(state := next), if cleaned then afterwards else Failed(CleanupFailure))
    case Lost(renamed, cleaned) =>
      Effect(if renamed then Some(next) else file, m.(failed := true),
             Failed(if cleaned then StorageFailure else CleanupFailure))
  }

  /** One serialized operation. */
  function Perform(digest: string -> string, file: Option<State>, m: Memory, op: Op, outcome: SaveOutcome): Effect {
    if m.failed then Effect(file, m, Failed(StorageFailure))
    else
      match PlanOf(digest, m.state, op)
      case Answer(response) => Effect(file, m, response)
      case Save(next, afterwards) => SaveEffect(file, m, next, afterwards, outcome)
  }

  // ---- The store object ----

  /** The allocator's loop, for any rendering of numbers as text. */
  method FindAvailable(text: int -> string, range: Range, taken: set<string>) returns (available: Option<string>)
    ensures available == FirstFree(text, range.first, range.last, taken)
  {
    var n := range.first;
    while n <= range.last
      invariant FirstFree(text, range.first, range.last, taken) == FirstFree(text, n, range.last, taken)
      decreases range.last - n
    {
      var candidate := text(n);
      if candidate !in taken {
        return Some(candidate);
      }
      n := n + 1;
    }
    available := None;
  }

  class StateFile {
    var contents: Option<State>

    constructor ()
      ensures contents == None
    {
      contents := None;
    }
  }

  class ReceiverState {
    const digest: string -> string
    const file: StateFile
    var state: State
    var failed: bool

    constructor (digest: string -> string, file: StateFile, state: State)
      ensures this.digest == digest && this.file == file && this.state == state && !failed
    {
      this.digest, this.file, this.state, this.failed := digest, file, state, false;
    }

    function Effects(response: Response): Effect
      reads this, file
    {
      Effect(file.contents, Memory(state, failed), response)
    }

    method SaveState(next: State, outcome: SaveOutcome) returns (error: Option<Failure>)
      modifies this`state, this`failed, file
      ensures Effects(if error.Some? then Failed(error.value) else Done)
              == SaveEffect(old(file.contents), old(Memory(state, failed)), next, Done, outcome)
      ensures error.None? <==> outcome == Saved(true)
    {
      error := None;
      if outcome.Saved? || outcome.renamed {
        file.contents := Some(next);
      }
      if outcome.Saved? {
        state := next;
      } else {
        failed := true;
        error := Some(StorageFailure);
      }
      if !outcome.cleaned {
        error := Some(CleanupFailure);
      }
    }

    method Invite(excludeAddress: Option<string>, secret: string, now: Instant, outcome: SaveOutcome)
        returns (r: Response)
      modifies this`state, this`failed, file
      ensures Effects(r)
              == Perform(digest, old(file.contents), old(Memory(state, failed)),
                         CreateInvitation(excludeAddress, secret, now), outcome)
    {
      if failed { return Failed(StorageFailure); }
      if excludeAddress.Some? {
        var range := PoolRange(state.identity.pool);
        if range.None? || !ValidExclusion(excludeAddress.value, state.identity.receiverAddress, range.value) {
          return Failed(ExclusionInvalid);
        }
        if HasAddress(state.devices, excludeAddress.value) { return Failed(ExclusionAllocated); }
      }
      var invitations := LiveOnly(state.invitations, now);
      if |invitations| >= MAX_INVITATIONS { return Failed(TooManyInvitations); }
      invitations := invitations + [Pending(digest(secret), now, now + TTL, excludeAddress)];
      var error := SaveState(state.(invitations := invitations), outcome);
      r := if error.Some? then Failed(error.value) else Invitation(secret);
    }

    /** The device an enrollment ends up with, or why it is refused. */
    method ChooseDevice(key: string, exclude: Option<string>) returns (r: Response)
      ensures r == PlanDevice(state, key, exclude)
    {
      var known := FindDevice(state.devices, key);
      if known.Some? {
        if Some(known.value.address) == exclude { return Failed(Rejected(Excluded)); }
        return Enrolled(known.value);
      }
      if |state.devices| >= MAX_DEVICES { return Failed(Rejected(Capacity)); }
      var range := PoolRange(state.identity.pool);
      if range.None? { return Failed(Rejected(Pool)); }
      var available := FindAvailable(AddressText, range.value, Taken(state, exclude));
      if available.None? { return Failed(Rejected(Pool)); }
      return Enrolled(Device(key, available.value, AllPorts));
    }

    /** `enroll` up to its save. */
    method PrepareEnrollment(key: string, secret: string, now: Instant) returns (plan: Plan)
      ensures plan == PlanEnrollment(digest, state, key, secret, now)
    {
      if !IsKey(key) || key == state.identity.receiverKey || !IsKey(secret) { return Answer(Failed(Unusable)); }
      var found := FindInvitation(state.invitations, digest(secret), now);
      if found.None? || found.value >= |state.invitations| { return Answer(Failed(Unusable)); }
      var choice := ChooseDevice(key, state.invitations[found.value].excludeAddress);
      if choice.Failed? { return Answer(choice); }
      var devices := if FindDevice(state.devices, key).Some? then state.devices else state.devices + [choice.device];
      var rest := state.invitations[..found.value] + state.invitations[found.value + 1..];
      return Save(state.(devices := devices, invitations := LiveOnly(rest, now)), choice);
    }

    method EnrollDevice(key: string, secret: string, now: Instant, outcome: SaveOutcome) returns (r: Response)
      modifies this`state, this`failed, file
      ensures Effects(r)
              == Perform(digest, old(file.contents), old(Memory(state, failed)), Enroll(key, secret, now), outcome)
    {
      if failed { return Failed(StorageFailure); }
      var plan := PrepareEnrollment(key, secret, now);
      if plan.Answer? { return plan.response; }
      var error := SaveState(plan.next, outcome);
      r := if error.Some? then Failed(error.value) else plan.afterwards;
    }

    method Grant(key: string, ports: PortGrant, outcome: SaveOutcome) returns (r: Response)
      modifies this`state, this`failed, file
      ensures Effects(r)
              == Perform(digest, old(file.contents), old(Memory(state, failed)), SetGrant(key, ports), outcome)
    {
      if failed { return Failed(StorageFailure); }
      if !ValidGrant(ports) { return Failed(InvalidGrant); }
      if FindDevice(state.devices, key).None? { return Failed(UnknownDevice); }
      var error := SaveState(state.(devices := WithGrant(state.devices, key, ports)), outcome);
      r := if error.Some? then Failed(error.value) else Done;
    }

    method RevokeDevice(key: string, outcome: SaveOutcome) returns (r: Response)
      modifies this`state, this`failed, file
      ensures Effects(r) == Perform(digest, old(file.contents), old(Memory(state, failed)), Revoke(key), outcome)
    {
      if failed { return Failed(StorageFailure); }
      if FindDevice(state.devices, key).None? { return Failed(UnknownDevice); }
      var error := SaveState(state.(devices := WithoutDevice(state.devices, key)), outcome);
      r := if error.Some? then Failed(error.value) else Done;
    }
  }
}
