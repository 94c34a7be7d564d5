/** How changes of the store reach the packet runtime: a grant or a revocation with the launch that follows it, an
    enrollment with the restart it causes. */
module ReceiverLaunches {
  import opened Common
  import opened ReceiverStore
  import opened ReceiverPlans
  import opened ReceiverGenerations
  import opened ReceiverChanges

  /** The store's list in memory. */
  function ListOf(h: History, n: nat): seq<Device>
    requires n < |h.processes|
  {
    h.processes[n].memory.state.devices
  }

  /** Event `n` is a command that passes its checks and stops the runtime without error. */
  ghost predicate Accepted(h: History, n: nat, change: Change)
    requires n < |h.events| < |h.processes|
  {
    && h.events[n] == Begin(change, true) && !h.processes[n].memory.failed
    && Lists(h.processes[n].memory.state, change.key)
    && (change.Regrant? ==> AcceptableGrant(change.ports))
  }

  lemma BeginStep(digest: string -> string, p: Process, change: Change, stops: bool)
    requires Sound(p) && p.stage.Idle? && !p.stopped
    ensures var q := React(digest, p, Begin(change, stops));
            && (q.stage == Changing(change) <==>
                  && !p.memory.failed && Lists(p.memory.state, change.key)
                  && (change.Regrant? ==> AcceptableGrant(change.ports)) && stops)
            && (q.stage == Changing(change) ==> q.generations == map[])
            && q.memory == p.memory && q.file == p.file
  {
    ListedIsFound(p.memory.state, change.key);
    StopCurrentSound(p, p.memory.state.devices, p.file.value.devices);
  }

  /** A command gets as far as changing the store exactly if the store works, the device is known, a grant is
      acceptable, and the old runtime stops without error; by then no runtime is up. */
  lemma CommandStartsExactly(digest: string -> string, s: State, h: History, n: nat, change: Change, stops: bool)
    requires IsHistory(digest, s, h) && n < |h.events| && h.events[n] == Begin(change, stops)
    ensures h.processes[n + 1].stage == Changing(change) <==> Accepted(h, n, change)
    ensures Accepted(h, n, change) ==> h.processes[n + 1].generations == map[]
    ensures h.processes[n + 1].memory == h.processes[n].memory
  {
    assert Happens(digest, h, n);
    ReceiverGenerations.ReachableSound(digest, s, h, n);
    BeginStep(digest, h.processes[n], change, stops);
  }

  lemma BusyStep(digest: string -> string, p: Process, e: Event)
    requires Enabled(p, e) && !p.stage.Idle? && !e.Apply? && !e.Launch?
    ensures React(digest, p, e).stage == p.stage && React(digest, p, e).memory == p.memory
  {
  }

  lemma BusyNext(digest: string -> string, s: State, h: History, m: nat, n: nat)
    requires IsHistory(digest, s, h) && m < |h.events| && n == m + 1
    requires !h.processes[m].stage.Idle? && !h.events[m].Apply? && !h.events[m].Launch?
    ensures h.processes[n].stage == h.processes[m].stage && h.processes[n].memory == h.processes[m].memory
  {
    assert Happens(digest, h, m);
    BusyStep(digest, h.processes[m], h.events[m]);
  }

  /** While the queue is busy, nothing but its own next step moves it. */
  lemma {:induction false} BusyStays(digest: string -> string, s: State, h: History, a: nat, b: nat)
    requires IsHistory(digest, s, h) && a <= b <= |h.events| && !h.processes[a].stage.Idle?
    requires forall m | a <= m < b :: !h.events[m].Apply? && !h.events[m].Launch?
    ensures h.processes[b].stage == h.processes[a].stage && h.processes[b].memory == h.processes[a].memory
    decreases b
  {
    if a < b {
      var m: nat := b - 1;
      BusyStays(digest, s, h, a, m);
      BusyNext(digest, s, h, m, b);
    }
  }

  /** What the change makes of the list: exactly the new grant for the device, or the list without it. */
  ghost predicate Effected(before: seq<Device>, after: seq<Device>, change: Change) {
    match change
    case Regrant(key, ports) => Regranted(before, after, key, ports)
    case Unpair(key) => forall d :: d in after <==> d in before && d.publicKey != key
  }

  lemma ChangePlanned(digest: string -> string, s: State, change: Change)
    requires Lists(s, change.key) && (change.Regrant? ==> AcceptableGrant(change.ports))
    ensures var plan := PlanOf(digest, s, ChangeOp(change));
            plan.Save? && plan.afterwards == Done && Effected(s.devices, plan.next.devices, change)
  {
    match change
    case Regrant(key, ports) => GrantPlanned(digest, s, key, ports);
    case Unpair(key) =>
      ListedIsFound(s, key);
      WithoutDeviceFacts(s.devices, key);
  }

  lemma ApplyStep(digest: string -> string, p: Process, change: Change)
    requires p.stage == Changing(change) && !p.memory.failed && Lists(p.memory.state, change.key)
    requires change.Regrant? ==> AcceptableGrant(change.ports)
    ensures var q := React(digest, p, Apply(Saved(true)));
            && q.stage.Launching? && !q.memory.failed && q.file == Some(q.memory.state)
            && Effected(p.memory.state.devices, q.memory.state.devices, change)
  {
    ChangePlanned(digest, p.memory.state, change);
  }

  lemma ApplyHappens(digest: string -> string, s: State, h: History, m: nat, n: nat, change: Change)
    requires IsHistory(digest, s, h) && m < |h.events| && n == m + 1 && h.events[m] == Apply(Saved(true))
    requires h.processes[m].stage == Changing(change) && !h.processes[m].memory.failed
    requires Lists(h.processes[m].memory.state, change.key) && (change.Regrant? ==> AcceptableGrant(change.ports))
    ensures h.processes[n].stage.Launching? && !h.processes[n].memory.failed
    ensures h.processes[n].file == Some(h.processes[n].memory.state)
    ensures Effected(ListOf(h, m), ListOf(h, n), change)
  {
    assert Happens(digest, h, m);
    ApplyStep(digest, h.processes[m], change);
  }

  lemma LaunchHappens(digest: string -> string, s: State, h: History, l: nat, n: nat)
    requires IsHistory(digest, s, h) && l < |h.events| && n == l + 1 && h.events[l] == Launch(true)
    requires !h.processes[l].memory.failed
    ensures var p := h.processes[n];
            p.current.Some? && p.current.value in p.generations && p.generations[p.current.value] == ListOf(h, l)
  {
    assert Happens(digest, h, l);
  }

  /** A command takes effect: once accepted, when its change is saved and the next launch succeeds, the runtime that is
      up then enforces the list the store had at the command, with exactly this change made. */
  lemma CommandTakesEffect(digest: string -> string, s: State, h: History, n: nat, m: nat, l: nat, change: Change)
    requires IsHistory(digest, s, h) && n < m < l < |h.events| && Accepted(h, n, change)
    requires h.events[m] == Apply(Saved(true)) && h.events[l] == Launch(true)
    requires forall i | n < i < m || m < i < l :: !h.events[i].Apply? && !h.events[i].Launch?
    ensures h.processes[m + 1].file.Some? && h.processes[m + 1].file.value.devices == ListOf(h, m + 1)
    ensures Effected(ListOf(h, n), ListOf(h, m + 1), change)
    ensures var p := h.processes[l + 1];
            p.current.Some? && p.current.value in p.generations && p.generations[p.current.value] == ListOf(h, m + 1)
  {
    var begun: nat, applied: nat, launched: nat := n + 1, m + 1, l + 1;
    CommandStartsExactly(digest, s, h, n, change, true);
    BusyStays(digest, s, h, begun, m);
    ApplyHappens(digest, s, h, m, applied, change);
    BusyStays(digest, s, h, applied, l);
    LaunchHappens(digest, s, h, l, launched);
  }

  /** A change that is not saved cleanly launches nothing: no runtime is up and none is coming. */
  lemma FailedChangeLaunchesNothing(digest: string -> string, s: State, h: History, m: nat)
    requires IsHistory(digest, s, h) && m < |h.events| && h.events[m].Apply? && h.events[m].outcome != Saved(true)
    ensures h.processes[m + 1].stage.Idle? && h.processes[m + 1].generations == map[]
  {
    assert Happens(digest, h, m);
    ReceiverGenerations.ReachableSound(digest, s, h, m);
    ApplyRunsNothing(digest, h.processes[m], h.events[m]);
    var op := ChangeOp(h.processes[m].stage.change);
    assert !Perform(digest, h.processes[m].file, h.processes[m].memory, op, h.events[m].outcome).response.Done?;
  }

  // ---- Revoked devices ----

  /** The event puts an enrollment of the key into the store's memory. */
  predicate Reenrolls(e: Event, key: string) {
    e.Enrollment? && e.key == key && e.outcome.Saved?
  }

  lemma OperationKeepsUnlisted(digest: string -> string, file: Option<State>, m: Memory, op: Op, outcome: SaveOutcome,
                               key: string)
    requires !Lists(m.state, key) && (op.Enroll? && op.publicKey == key ==> outcome.Lost?)
    ensures !Lists(Perform(digest, file, m, op, outcome).memory.state, key)
  {
    if PlanOf(digest, m.state, op).Save? && !(op.Enroll? && op.publicKey == key) {
      PlanKeepsAbsent(digest, m.state, op, key);
    }
  }

  lemma UnlistedNext(digest: string -> string, s: State, h: History, m: nat, n: nat, key: string)
    requires IsHistory(digest, s, h) && m < |h.events| && n == m + 1
    requires !Lists(h.processes[m].memory.state, key) && !Reenrolls(h.events[m], key)
    ensures !Lists(h.processes[n].memory.state, key)
  {
    assert Happens(digest, h, m);
    var p := h.processes[m];
    match h.events[m]
    case Enrollment(k, secret, now, _, _, outcome) =>
      OperationKeepsUnlisted(digest, p.file, p.memory, Enroll(k, secret, now), outcome, key);
    case Invite(exclude, secret, now, outcome) =>
      OperationKeepsUnlisted(digest, p.file, p.memory, CreateInvitation(exclude, secret, now), outcome, key);
    case Apply(outcome) => OperationKeepsUnlisted(digest, p.file, p.memory, ChangeOp(p.stage.change), outcome, key);
    case _ => StoreUntouched(digest, p, h.events[m]);
  }

  lemma {:induction false} UnlistedUntilEnrolled(digest: string -> string, s: State, h: History, a: nat, b: nat,
                                                 key: string) returns (e: nat)
    requires IsHistory(digest, s, h) && a <= b <= |h.events|
    requires !Lists(h.processes[a].memory.state, key) && Lists(h.processes[b].memory.state, key)
    ensures a <= e < b && Reenrolls(h.events[e], key)
    decreases b
  {
    var m: nat := b - 1;
    if Lists(h.processes[m].memory.state, key) {
      e := UnlistedUntilEnrolled(digest, s, h, a, m, key);
    } else {
      e := m;
      if !Reenrolls(h.events[m], key) {
        UnlistedNext(digest, s, h, m, b, key);
      }
    }
  }

  lemma EnforcedIsListed(p: Process, g: nat, d: Device)
    requires Sound(p) && g in p.generations && d in p.generations[g]
    ensures d in p.memory.state.devices
  {
    var i :| 0 <= i < |p.generations[g]| && p.generations[g][i] == d;
    assert p.memory.state.devices[i] == d;
  }

  /** A revoked device is served no more: after its revocation is saved, no runtime enforces a list with its key, now or
      at any later moment, unless an enrollment of that key was saved in between. */
  lemma RevokedIsNotEnforced(digest: string -> string, s: State, h: History, n: nat, m: nat, b: nat, key: string,
                             g: nat,
                             d: Device) returns (e: nat)
    requires IsHistory(digest, s, h) && n < m < b <= |h.events| && Accepted(h, n, Unpair(key))
    requires h.events[m] == Apply(Saved(true))
    requires forall i | n < i < m :: !h.events[i].Apply? && !h.events[i].Launch?
    requires g in h.processes[b].generations && d in h.processes[b].generations[g] && d.publicKey == key
    ensures m < e < b && Reenrolls(h.events[e], key)
  {
    var begun: nat, applied: nat := n + 1, m + 1;
    CommandStartsExactly(digest, s, h, n, Unpair(key), true);
    BusyStays(digest, s, h, begun, m);
    ApplyHappens(digest, s, h, m, applied, Unpair(key));
    ReceiverGenerations.ReachableSound(digest, s, h, b);
    EnforcedIsListed(h.processes[b], g, d);
    e := UnlistedUntilEnrolled(digest, s, h, applied, b, key);
  }

  // ---- Enrolled devices ----

  /** The change under way is not the revocation of this key. */
  predicate SparesKey(p: Process, e: Event, key: string) {
    e.Apply? && p.stage.Changing? ==> p.stage.change != Unpair(key)
  }

  lemma OperationKeepsDevice(digest: string -> string, file: Option<State>, m: Memory, op: Op, outcome: SaveOutcome,
                             d: Device)
    requires HasKeyAndAddress(m.state, d) && !Revokes(op, d.publicKey)
    ensures HasKeyAndAddress(Perform(digest, file, m, op, outcome).memory.state, d)
  {
    if PlanOf(digest, m.state, op).Save? {
      var x :| x in m.state.devices && x.publicKey == d.publicKey && x.address == d.address;
      PlanKeepsDevice(digest, m.state, op, x);
    }
  }

  lemma DeviceNext(digest: string -> string, s: State, h: History, m: nat, n: nat, d: Device)
    requires IsHistory(digest, s, h) && m < |h.events| && n == m + 1
    requires HasKeyAndAddress(h.processes[m].memory.state, d) && SparesKey(h.processes[m], h.events[m], d.publicKey)
    ensures HasKeyAndAddress(h.processes[n].memory.state, d)
  {
    assert Happens(digest, h, m);
    var p := h.processes[m];
    match h.events[m]
    case Enrollment(k, secret, now, _, _, outcome) =>
      OperationKeepsDevice(digest, p.file, p.memory, Enroll(k, secret, now), outcome, d);
    case Invite(exclude, secret, now, outcome) =>
      OperationKeepsDevice(digest, p.file, p.memory, CreateInvitation(exclude, secret, now), outcome, d);
    case Apply(outcome) => OperationKeepsDevice(digest, p.file, p.memory, ChangeOp(p.stage.change), outcome, d);
    case _ => StoreUntouched(digest, p, h.events[m]);
  }

  lemma {:induction false} DeviceLater(digest: string -> string, s: State, h: History, a: nat, b: nat, d: Device)
    requires IsHistory(digest, s, h) && a <= b <= |h.events| && HasKeyAndAddress(h.processes[a].memory.state, d)
    requires forall m | a <= m < b :: SparesKey(h.processes[m], h.events[m], d.publicKey)
    ensures HasKeyAndAddress(h.processes[b].memory.state, d)
    decreases b
  {
    if a < b {
      var m: nat := b - 1;
      DeviceLater(digest, s, h, a, m, d);
      DeviceNext(digest, s, h, m, b, d);
    }
  }

  /** The store's answer to an enrollment. */
  function StoredAnswer(digest: string -> string, p: Process, v: Event): Response
    requires v.Enrollment?
  {
    Perform(digest, p.file, p.memory, Enroll(v.key, v.secret, v.now), v.outcome).response
  }

  lemma GrantedIsListed(digest: string -> string, file: Option<State>, m: Memory, key: string, secret: string,
                        now: Instant, outcome: SaveOutcome, d: Device)
    requires Perform(digest, file, m, Enroll(key, secret, now), outcome).response == Enrolled(d)
    ensures d in Perform(digest, file, m, Enroll(key, secret, now), outcome).memory.state.devices
  {
    if PlanEnrollment(digest, m.state, key, secret, now).Save? {
      var i := EnrollmentFacts(digest, m.state, key, secret, now);
    }
  }

  lemma AnsweredIsListed(digest: string -> string, p: Process, v: Event, d: Device)
    requires Enabled(p, v) && v.Enrollment? && !v.conflict && v.open && !p.stopping
    requires StoredAnswer(digest, p, v) == Enrolled(d)
    ensures d in React(digest, p, v).memory.state.devices
  {
    GrantedIsListed(digest, p.file, p.memory, v.key, v.secret, v.now, v.outcome, d);
  }

  /** An enrollment that the store answers with a device leaves that device in the store. */
  lemma EnrolledIsListed(digest: string -> string, s: State, h: History, n: nat, d: Device)
    requires IsHistory(digest, s, h) && n < |h.events| && h.events[n].Enrollment?
    requires !h.events[n].conflict && h.events[n].open && !h.processes[n].stopping
    requires StoredAnswer(digest, h.processes[n], h.events[n]) == Enrolled(d)
    ensures d in ListOf(h, n + 1)
  {
    assert Happens(digest, h, n);
    AnsweredIsListed(digest, h.processes[n], h.events[n], d);
  }

  /** The runtime that is up enforces a list with the device's key at its address. */
  ghost predicate Serves(p: Process, d: Device) {
    && p.current.Some? && p.current.value in p.generations
    && exists x :: x in p.generations[p.current.value] && x.publicKey == d.publicKey && x.address == d.address
  }

  lemma LaunchServes(digest: string -> string, s: State, h: History, l: nat, n: nat, d: Device)
    requires IsHistory(digest, s, h) && l < |h.events| && n == l + 1 && h.events[l] == Launch(true)
    requires !h.processes[l].memory.failed && HasKeyAndAddress(h.processes[l].memory.state, d)
    ensures Serves(h.processes[n], d)
  {
    LaunchHappens(digest, s, h, l, n);
    var x :| x in h.processes[l].memory.state.devices && x.publicKey == d.publicKey && x.address == d.address;
  }

  /** A device in the store is served by every launch that follows, at its address, until it is revoked. */
  lemma ListedIsEnforced(digest: string -> string, s: State, h: History, a: nat, l: nat, d: Device)
    requires IsHistory(digest, s, h) && a <= l < |h.events| && d in ListOf(h, a)
    requires forall m | a <= m < l :: SparesKey(h.processes[m], h.events[m], d.publicKey)
    requires h.events[l] == Launch(true) && !h.processes[l].memory.failed
    ensures Serves(h.processes[l + 1], d)
  {
    var launched: nat := l + 1;
    assert HasKeyAndAddress(h.processes[a].memory.state, d);
    DeviceLater(digest, s, h, a, l, d);
    LaunchServes(digest, s, h, l, launched, d);
  }

  /** An enrollment that meets a route conflict, comes after its stream has closed, or while the receiver is stopping,
      is not put to the store: nothing changes. */
  lemma UnaskedChangesNothing(digest: string -> string, s: State, h: History, n: nat)
    requires IsHistory(digest, s, h) && n < |h.events| && h.events[n].Enrollment?
    requires h.events[n].conflict || !h.events[n].open || h.processes[n].stopping
    ensures h.processes[n + 1] == h.processes[n]
  {
    assert Happens(digest, h, n);
  }

  /** An invite command reaches the store: if the store wants to save the invitation and the save goes well, file and
      memory end with it. */
  lemma InviteIsStored(digest: string -> string, s: State, h: History, n: nat)
    requires IsHistory(digest, s, h) && n < |h.events| && h.events[n].Invite? && h.events[n].outcome == Saved(true)
    requires var v, m := h.events[n], h.processes[n].memory;
             !m.failed && PlanOf(digest, m.state, CreateInvitation(v.exclude, v.newSecret, v.at)).Save?
    ensures var v, m := h.events[n], h.processes[n + 1].memory;
            && h.processes[n + 1].file == Some(m.state) && m.state.invitations != []
            && m.state.invitations[|m.state.invitations| - 1]
               == Pending(digest(v.newSecret), v.at, v.at + 600_000, v.exclude)
  {
    assert Happens(digest, h, n);
  }

  lemma StoppingStep(digest: string -> string, p: Process, e: Event)
    requires Enabled(p, e) && ((p.stopping && !p.timer && !e.Changed?) || e.BeginStop?)
    ensures React(digest, p, e).stopping && !React(digest, p, e).timer
  {
  }

  /** Once stopping has begun a restart that was due is forgotten: no timer is left, unless a commit is announced
      yet. */
  lemma {:induction false} StoppingForgetsRestart(digest: string -> string, s: State, h: History, a: nat, n: nat)
    requires IsHistory(digest, s, h) && a < n <= |h.events| && h.events[a].BeginStop?
    requires forall m | a < m < n :: !h.events[m].Changed?
    ensures h.processes[n].stopping && !h.processes[n].timer
    decreases n
  {
    var m: nat := n - 1;
    if m > a {
      StoppingForgetsRestart(digest, s, h, a, m);
    }
    assert Happens(digest, h, m);
    StoppingStep(digest, h.processes[m], h.events[m]);
  }

  /** The restart is still to come, is launching, or there has been a launch since moment `a`. */
  ghost predicate RestartDue(h: History, a: nat, n: nat)
    requires n <= |h.events| < |h.processes|
  {
    h.processes[n].timer || h.processes[n].stage.Launching? || exists l: nat :: a < l < n && h.events[l].Launch?
  }

  lemma DueStep(digest: string -> string, p: Process, e: Event)
    requires Enabled(p, e) && !e.BeginStop? && !p.stopping && !e.Launch? && (e.Timer? ==> e.stops)
    requires p.timer || p.stage.Launching?
    ensures React(digest, p, e).timer || React(digest, p, e).stage.Launching?
    ensures !React(digest, p, e).stopping
  {
  }

  lemma DueNext(digest: string -> string, s: State, h: History, a: nat, m: nat, n: nat)
    requires IsHistory(digest, s, h) && a < m < |h.events| && n == m + 1
    requires !h.processes[m].stopping && RestartDue(h, a, m)
    requires !h.events[m].BeginStop? && h.events[m] != Timer(false)
    ensures !h.processes[n].stopping && RestartDue(h, a, n)
  {
    assert Happens(digest, h, m);
    if !h.events[m].Launch? && (h.processes[m].timer || h.processes[m].stage.Launching?) {
      DueStep(digest, h.processes[m], h.events[m]);
    }
  }

  /** The restart after an enrollment is not forgotten: from the announcement on, unless the receiver is stopped or the
      old runtime cannot be, the restart is to come, is launching, or has launched. */
  lemma {:induction false} RestartIsDue(digest: string -> string, s: State, h: History, a: nat, n: nat)
    requires IsHistory(digest, s, h) && a < n <= |h.events| && h.events[a] == Changed && !h.processes[a].stopping
    requires forall m | a < m < n :: !h.events[m].BeginStop? && h.events[m] != Timer(false)
    ensures !h.processes[n].stopping && RestartDue(h, a, n)
    decreases n
  {
    var m: nat := n - 1;
    if m == a {
      assert Happens(digest, h, m);
    } else {
      RestartIsDue(digest, s, h, a, m);
      DueNext(digest, s, h, a, m, n);
    }
  }
}
