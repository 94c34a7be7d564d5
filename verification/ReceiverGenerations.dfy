/** The receiver process: a store, and generations of the packet runtime that enforce its device list. */
module ReceiverGenerations {
  import opened Common
  import opened ReceiverStore

  /** A command that changes what a device may do. */
  datatype Change = Regrant(key: string, ports: PortGrant) | Unpair(key: string)

  function ChangeOp(c: Change): Op {
    if c.Regrant? then SetGrant(c.key, c.ports) else Revoke(c.key)
  }

  /** Where the serialized work stands between two awaits. */
  datatype Stage = Idle | Changing(change: Change) | Launching

  /** `generations` are the runtimes that are up, with the device list each enforces; `current` is the `runtime`
      variable. */
  datatype Process = Process(file: Option<State>, memory: Memory, generations: map<nat, seq<Device>>,
                             current: Option<nat>,
                             launched: nat, stage: Stage, timer: bool, stopping: bool, stopped: bool)

  datatype Event =
    | Enrollment(key: string, secret: string, now: Instant, conflict: bool, open: bool, outcome: SaveOutcome)
    | Invite(exclude: Option<string>, newSecret: string, at: Instant, outcome: SaveOutcome)
    | Changed                                        // an enrollment was answered: restart soon
    | Timer(stops: bool)                             // the restart timer; `stops`: the old runtime stops without error
    | Begin(change: Change, stops: bool)             // a grant or revoke command, up to the stop of the old runtime
    | Apply(outcome: SaveOutcome)                    // its change to the store
    | Launch(starts: bool)                           // the new runtime starts, or fails to
    | BeginStop
    | FinishStop

  /** What the `enroll` callback answers: `open` is false once the stream or the receiver is closing, or if the routes
      could not be read; only otherwise is the store asked. */
  function EnrollmentAnswer(conflict: bool, open: bool, stored: Response): Response {
    if conflict then Failed(Rejected(Route)) else if !open then Failed(Ended) else stored
  }

  /** `await old?.stop()` */
  function StopCurrent(p: Process): Process {
    p.(generations := if p.current.Some? then p.generations - {p.current.value} else p.generations, current := None)
  }

  function WithStore(p: Process, e: Effect): Process {
    p.(file := e.file, memory := e.memory)
  }

  /** The serialized queue is free, and the event may start. */
  predicate Enabled(p: Process, e: Event) {
    match e
    case Apply(_) => p.stage.Changing?
    case Launch(_) => p.stage.Launching?
    case Changed => true
    case BeginStop => true
    case FinishStop => p.stopping && p.stage.Idle?
    case Timer(_) => p.timer && p.stage.Idle?
    case _ => p.stage.Idle? && !p.stopped
  }

  function React(digest: string -> string, p: Process, e: Event): Process
    requires Enabled(p, e)
  {
    match e
    case Enrollment(key, secret, now, conflict, open, outcome) =>
      if conflict || p.stopping || !open then p
      else WithStore(p, Perform(digest, p.file, p.memory, Enroll(key, secret, now), outcome))
    case Invite(exclude, secret, now, outcome) =>
      WithStore(p, Perform(digest, p.file, p.memory, CreateInvitation(exclude, secret, now), outcome))
    case Changed => p.(timer := true)
    case Timer(stops) =>
      if p.stopping then p.(timer := false)
      else StopCurrent(p).(timer := false, stage := if stops then Launching else Idle)
    case Begin(change, stops) =>
      if p.memory.failed || FindDevice(p.memory.state.devices, change.key).None?
         || (change.Regrant? && !ValidGrant(change.ports)) then p
      else StopCurrent(p).(stage := if stops then Changing(change) else Idle)
    case Apply(outcome) =>
      var effect := Perform(digest, p.file, p.memory, ChangeOp(p.stage.change), outcome);
      WithStore(p, effect).(stage := if effect.response.Done? then Launching else Idle)
    case Launch(starts) =>
      if p.memory.failed || !starts then p.(stage := Idle)
      else p.(generations := p.generations[p.launched := p.memory.state.devices], current := Some(p.launched),
              launched := p.launched + 1, stage := Idle)
    case BeginStop => p.(stopping := true, timer := false)
    case FinishStop => StopCurrent(p).(stopped := true)
  }

  /** The process once `startReceiver` has returned: the store is open and its first runtime is up. */
  function Started(s: State): Process {
    Process(Some(s), Memory(s, false), map[0 := s.devices], Some(0), 1, Idle, false, false, false)
  }

  /** There is a file, and unless a save has failed it is the memory. */
  ghost predicate StoreSound(file: Option<State>, m: Memory) {
    file.Some? && (!m.failed ==> file.value == m.state)
  }

  /** At most the current runtime is up, enforcing a prefix of the list `memory` and of the list `file`, and none is up
      while a command or a restart is under way. */
  ghost predicate RuntimesSound(p: Process, memory: seq<Device>, file: seq<Device>) {
    && p.generations.Keys == (if p.current.Some? then {p.current.value} else {})
    && (p.current.Some? ==> p.current.value < p.launched && p.stage.Idle?)
    && (forall g | g in p.generations :: p.generations[g] <= memory && p.generations[g] <= file)
    && (p.stopped ==> p.stopping && p.stage.Idle? && p.current.None?)
  }

  /** What every step keeps. */
  ghost predicate Sound(p: Process) {
    StoreSound(p.file, p.memory) && RuntimesSound(p, p.memory.state.devices, p.file.value.devices)
  }

  lemma EffectKeepsStore(digest: string -> string, file: Option<State>, m: Memory, op: Op, outcome: SaveOutcome)
    requires StoreSound(file, m)
    ensures var e := Perform(digest, file, m, op, outcome); StoreSound(e.file, e.memory)
  {
  }

  /** Both lists of the store only grow. */
  ghost predicate Extends(file: Option<State>, m: Memory, e: Effect) {
    file.Some? && e.file.Some? && m.state.devices <= e.memory.state.devices
      && file.value.devices <= e.file.value.devices
  }

  lemma PlanExtends(digest: string -> string, s: State, op: Op)
    requires (op.Enroll? || op.CreateInvitation?) && PlanOf(digest, s, op).Save?
    ensures s.devices <= PlanOf(digest, s, op).next.devices
  {
  }

  lemma EffectExtends(digest: string -> string, file: Option<State>, m: Memory, op: Op, outcome: SaveOutcome)
    requires StoreSound(file, m) && (op.Enroll? || op.CreateInvitation?)
    ensures Extends(file, m, Perform(digest, file, m, op, outcome))
  {
    if m.failed || PlanOf(digest, m.state, op).Answer? {
      assert Perform(digest, file, m, op, outcome).memory == m;
    } else {
      PlanExtends(digest, m.state, op);
      SaveExtends(file, m, PlanOf(digest, m.state, op).next, PlanOf(digest, m.state, op).afterwards, outcome);
    }
  }

  lemma SaveExtends(file: Option<State>, m: Memory, next: State, afterwards: Response, outcome: SaveOutcome)
    requires StoreSound(file, m) && !m.failed && m.state.devices <= next.devices
    ensures Extends(file, m, SaveEffect(file, m, next, afterwards, outcome))
  {
  }

  lemma ExtensionKeepsRuntimes(p: Process, e: Effect)
    requires Sound(p) && StoreSound(e.file, e.memory) && Extends(p.file, p.memory, e)
    ensures Sound(WithStore(p, e))
  {
  }

  lemma StoreStepSound(digest: string -> string, p: Process, op: Op, outcome: SaveOutcome)
    requires Sound(p) && (op.Enroll? || op.CreateInvitation?)
    ensures Sound(WithStore(p, Perform(digest, p.file, p.memory, op, outcome)))
  {
    EffectKeepsStore(digest, p.file, p.memory, op, outcome);
    EffectExtends(digest, p.file, p.memory, op, outcome);
    ExtensionKeepsRuntimes(p, Perform(digest, p.file, p.memory, op, outcome));
  }

  /** Nothing is up while a command applies its change. */
  lemma NothingRunsWhenBusy(p: Process, memory: seq<Device>, file: seq<Device>)
    requires RuntimesSound(p, memory, file) && !p.stage.Idle?
    ensures p.current.None? && p.generations == map[]
  {
    assert p.generations.Keys == {};
  }

  lemma ChangeKeepsRuntimes(p: Process, e: Effect, stage: Stage)
    requires Sound(p) && p.stage.Changing? && StoreSound(e.file, e.memory)
    ensures Sound(WithStore(p, e).(stage := stage))
  {
    NothingRunsWhenBusy(p, p.memory.state.devices, p.file.value.devices);
  }

  lemma ChangeStepSound(digest: string -> string, p: Process, outcome: SaveOutcome)
    requires Sound(p) && p.stage.Changing?
    ensures Sound(React(digest, p, Apply(outcome)))
  {
    var op := ChangeOp(p.stage.change);
    EffectKeepsStore(digest, p.file, p.memory, op, outcome);
    var e := Perform(digest, p.file, p.memory, op, outcome);
    ChangeKeepsRuntimes(p, e, if e.response.Done? then Launching else Idle);
  }

  /** Steps that neither enroll, invite nor apply a change leave the store alone. */
  lemma StoreUntouched(digest: string -> string, p: Process, e: Event)
    requires Enabled(p, e) && !e.Enrollment? && !e.Invite? && !e.Apply?
    ensures React(digest, p, e).memory == p.memory && React(digest, p, e).file == p.file
  {
  }

  lemma LaunchSound(digest: string -> string, p: Process, starts: bool)
    requires Sound(p) && p.stage.Launching?
    ensures Sound(React(digest, p, Launch(starts)))
  {
    NothingRunsWhenBusy(p, p.memory.state.devices, p.file.value.devices);
    var q := React(digest, p, Launch(starts));
    assert q.generations.Keys == if q.current.Some? then {q.current.value} else {};
  }

  lemma StopCurrentSound(p: Process, memory: seq<Device>, file: seq<Device>)
    requires RuntimesSound(p, memory, file)
    ensures RuntimesSound(StopCurrent(p), memory, file) && StopCurrent(p).generations == map[]
  {
    assert StopCurrent(p).generations.Keys == {};
  }

  lemma OtherStepSound(digest: string -> string, p: Process, e: Event)
    requires Sound(p) && Enabled(p, e) && (e.Changed? || e.Timer? || e.Begin? || e.BeginStop? || e.FinishStop?)
    ensures Sound(React(digest, p, e))
  {
    StopCurrentSound(p, p.memory.state.devices, p.file.value.devices);
    StoreUntouched(digest, p, e);
  }

  lemma ReactSound(digest: string -> string, p: Process, e: Event)
    requires Sound(p) && Enabled(p, e)
    ensures Sound(React(digest, p, e))
  {
    match e
    case Enrollment(key, secret, now, conflict, open, outcome) =>
      StoreStepSound(digest, p, Enroll(key, secret, now), outcome);
    case Invite(exclude, secret, now, outcome) =>
      StoreStepSound(digest, p, CreateInvitation(exclude, secret, now), outcome);
    case Apply(outcome) => ChangeStepSound(digest, p, outcome);
    case Launch(starts) => LaunchSound(digest, p, starts);
    case _ => OtherStepSound(digest, p, e);
  }

  datatype History = History(events: seq<Event>, processes: seq<Process>)

  ghost predicate Happens(digest: string -> string, h: History, n: nat)
    requires n < |h.events| && |h.processes| == |h.events| + 1
  {
    Enabled(h.processes[n], h.events[n]) && h.processes[n + 1] == React(digest, h.processes[n], h.events[n])
  }

  ghost predicate IsHistory(digest: string -> string, s: State, h: History) {
    && |h.processes| == |h.events| + 1 && h.processes[0] == Started(s)
    && forall n | 0 <= n < |h.events| :: Happens(digest, h, n)
  }

  lemma StartedSound(s: State)
    ensures Sound(Started(s))
  {
    assert Started(s).generations.Keys == {0};
  }

  lemma AtMostOneGeneration(p: Process)
    requires Sound(p)
    ensures |p.generations| <= 1 && (p.current.None? ==> p.generations == map[])
  {
    assert |p.generations| == |p.generations.Keys|;
    assert p.current.None? ==> p.generations.Keys == {};
  }

  lemma HappensSound(digest: string -> string, s: State, h: History, n: nat, m: nat)
    requires IsHistory(digest, s, h) && n < |h.events| && m == n + 1 && Sound(h.processes[n])
    ensures Sound(h.processes[m])
  {
    assert Happens(digest, h, n);
    ReactSound(digest, h.processes[n], h.events[n]);
  }

  lemma FirstSound(digest: string -> string, s: State, h: History, n: nat)
    requires IsHistory(digest, s, h) && n == 0
    ensures Sound(h.processes[n])
  {
    StartedSound(s);
  }

  lemma {:induction false} ReachableSound(digest: string -> string, s: State, h: History, n: nat)
    requires IsHistory(digest, s, h) && n <= |h.events|
    ensures Sound(h.processes[n])
    decreases n
  {
    if n == 0 {
      FirstSound(digest, s, h, n);
    } else {
      var m: nat := n - 1;
      ReachableSound(digest, s, h, m);
      HappensSound(digest, s, h, m, n);
    }
  }

  /** At every moment after `startReceiver` has returned at most one runtime is up, it is the current one, and the list
      it enforces is a prefix of the store's, in memory and in the file, with the same addresses and grants. */
  lemma NoStaleGeneration(digest: string -> string, s: State, h: History, n: nat)
    requires IsHistory(digest, s, h) && n <= |h.events|
    ensures var p := h.processes[n];
            && |p.generations| <= 1 && p.file.Some?
            && forall g | g in p.generations ::
                 p.current == Some(g) && p.generations[g] <= p.memory.state.devices
                   && p.generations[g] <= p.file.value.devices
  {
    ReachableSound(digest, s, h, n);
    AtMostOneGeneration(h.processes[n]);
  }

  /** A step after which the store's list, in memory or in the file, is no longer an extension of what it was. */
  ghost predicate Narrows(p: Process, q: Process)
    requires p.file.Some? && q.file.Some?
  {
    !(p.memory.state.devices <= q.memory.state.devices) || !(p.file.value.devices <= q.file.value.devices)
  }

  lemma ExtensionDoesNotNarrow(p: Process, e: Effect)
    requires Extends(p.file, p.memory, e)
    ensures WithStore(p, e).file.Some? && !Narrows(p, WithStore(p, e))
  {
  }

  lemma NarrowingNeedsApply(digest: string -> string, p: Process, e: Event)
    requires Sound(p) && Enabled(p, e) && !e.Apply?
    ensures React(digest, p, e).file.Some? && !Narrows(p, React(digest, p, e))
  {
    match e
    case Enrollment(key, secret, now, _, _, outcome) =>
      EffectExtends(digest, p.file, p.memory, Enroll(key, secret, now), outcome);
      ExtensionDoesNotNarrow(p, Perform(digest, p.file, p.memory, Enroll(key, secret, now), outcome));
    case Invite(exclude, secret, now, outcome) =>
      EffectExtends(digest, p.file, p.memory, CreateInvitation(exclude, secret, now), outcome);
      ExtensionDoesNotNarrow(p, Perform(digest, p.file, p.memory, CreateInvitation(exclude, secret, now), outcome));
    case _ => StoreUntouched(digest, p, e);
  }

  lemma ApplyRunsNothing(digest: string -> string, p: Process, e: Event)
    requires Sound(p) && Enabled(p, e) && e.Apply?
    ensures p.generations == map[] && React(digest, p, e).generations == map[] && React(digest, p, e).file.Some?
  {
    NothingRunsWhenBusy(p, p.memory.state.devices, p.file.value.devices);
    EffectKeepsStore(digest, p.file, p.memory, ChangeOp(p.stage.change), e.outcome);
  }

  /** A grant is changed, or a device revoked, only while no runtime is up, before and after. */
  lemma ChangesOnlyWhileStopped(digest: string -> string, s: State, h: History, n: nat)
    requires IsHistory(digest, s, h) && n < |h.events|
    ensures h.processes[n].file.Some? && h.processes[n + 1].file.Some?
    ensures Narrows(h.processes[n], h.processes[n + 1]) ==>
              h.events[n].Apply? && h.processes[n].generations == map[] && h.processes[n + 1].generations == map[]
  {
    ReachableSound(digest, s, h, n);
    assert Happens(digest, h, n);
    if h.events[n].Apply? {
      ApplyRunsNothing(digest, h.processes[n], h.events[n]);
    } else {
      NarrowingNeedsApply(digest, h.processes[n], h.events[n]);
    }
  }

  /** Generation `g` started at moment `l` with the list the store then had: with the process, or by a launch. */
  ghost predicate StartedAt(h: History, g: nat, l: nat)
    requires l < |h.processes| == |h.events| + 1
  {
    && g in h.processes[l].generations && h.processes[l].generations[g] == h.processes[l].memory.state.devices
    && (l == 0 || h.events[l - 1] == Launch(true))
  }

  /** Event `m` has not narrowed the store. */
  ghost predicate Grows(h: History, m: nat)
    requires m < |h.events| && |h.processes| == |h.events| + 1
  {
    h.processes[m].file.Some? && h.processes[m + 1].file.Some? && !Narrows(h.processes[m], h.processes[m + 1])
  }

  /** No event from moment `a` to moment `b` has narrowed the store. */
  ghost predicate OnlyGrows(h: History, a: nat, b: nat)
    requires b < |h.processes| == |h.events| + 1
  {
    a < b ==> Grows(h, b - 1) && OnlyGrows(h, a, b - 1)
  }

  /** A generation is up after an event only if it was before, with the same list, or the event launched it with the
      store's list. */
  lemma GenerationStep(digest: string -> string, p: Process, e: Event, g: nat)
    requires Enabled(p, e) && g in React(digest, p, e).generations
    ensures var q := React(digest, p, e);
            || (g in p.generations && q.generations[g] == p.generations[g])
            || (e == Launch(true) && q.generations[g] == q.memory.state.devices)
  {
  }

  lemma GenerationHappens(digest: string -> string, s: State, h: History, m: nat, n: nat, g: nat)
    requires IsHistory(digest, s, h) && m < |h.events| && n == m + 1 && g in h.processes[n].generations
    ensures Grows(h, m)
    ensures (g in h.processes[m].generations && h.processes[n].generations[g] == h.processes[m].generations[g])
            || StartedAt(h, g, n)
  {
    ChangesOnlyWhileStopped(digest, s, h, m);
    assert Happens(digest, h, m);
    GenerationStep(digest, h.processes[m], h.events[m], g);
  }

  /** A live runtime enforces exactly the list that the store had when it was launched, and since then no device has
      been revoked and no grant changed: the stored list has only grown. */
  lemma {:induction false} GenerationIsCurrent(digest: string -> string, s: State, h: History, n: nat, g: nat)
      returns (l: nat)
    requires IsHistory(digest, s, h) && n <= |h.events| && g in h.processes[n].generations
    ensures l <= n && StartedAt(h, g, l) && h.processes[n].generations[g] == h.processes[l].generations[g]
    ensures OnlyGrows(h, l, n)
    decreases n
  {
    if n == 0 {
      l := 0;
    } else {
      var m: nat := n - 1;
      GenerationHappens(digest, s, h, m, n, g);
      if g in h.processes[m].generations && h.processes[n].generations[g] == h.processes[m].generations[g] {
        l := GenerationIsCurrent(digest, s, h, m, g);
      } else {
        l := n;
      }
    }
  }

  lemma StoppedStays(digest: string -> string, p: Process, e: Event)
    requires Enabled(p, e) && p.stopped
    ensures React(digest, p, e).stopped
  {
  }

  lemma StoppedNext(digest: string -> string, s: State, h: History, n: nat, m: nat)
    requires IsHistory(digest, s, h) && n < |h.events| && m == n + 1 && h.processes[n].stopped
    ensures h.processes[m].stopped
  {
    assert Happens(digest, h, n);
    StoppedStays(digest, h.processes[n], h.events[n]);
  }

  lemma {:induction false} StoppedLater(digest: string -> string, s: State, h: History, n: nat, m: nat)
    requires IsHistory(digest, s, h) && n <= m <= |h.events| && h.processes[n].stopped
    ensures h.processes[m].stopped
    decreases m
  {
    if n < m {
      var l: nat := m - 1;
      StoppedLater(digest, s, h, n, l);
      StoppedNext(digest, s, h, l, m);
    }
  }

  /** After `stop` has finished nothing runs, and nothing starts again. */
  lemma StoppedForGood(digest: string -> string, s: State, h: History, n: nat, m: nat)
    requires IsHistory(digest, s, h) && n <= m <= |h.events| && h.processes[n].stopped
    ensures h.processes[m].stopped && h.processes[m].generations == map[]
  {
    StoppedLater(digest, s, h, n, m);
    ReachableSound(digest, s, h, m);
    AtMostOneGeneration(h.processes[m]);
  }

  // ---- The process object ----

  /** The variables that the queued steps of `startReceiver` share. */
  class Receiver {
    const store: ReceiverState
    var generations: map<nat, seq<Device>>
    var current: Option<nat>
    var launched: nat
    var stage: Stage
    var timer: bool
    var stopping: bool
    var stopped: bool

    function View(): Process
      reads this, store, store.file
    {
      Process(store.file.contents, Memory(store.state, store.failed), generations, current, launched, stage, timer,
              stopping, stopped)
    }

    constructor (store: ReceiverState)
      requires !store.failed && store.file.contents == Some(store.state)
      ensures this.store == store && View() == Started(store.state)
    {
      this.store := store;
      generations, current, launched := map[0 := store.state.devices], Some(0), 1;
      stage, timer, stopping, stopped := Idle, false, false, false;
    }

    /** The `enroll` callback. */
    method OnEnrollment(key: string, secret: string, now: Instant, conflict: bool, open: bool, outcome: SaveOutcome)
        returns (r: Response)
      requires Enabled(View(), Enrollment(key, secret, now, conflict, open, outcome))
      modifies store`state, store`failed, store.file
      ensures View() == React(store.digest, old(View()), Enrollment(key, secret, now, conflict, open, outcome))
      ensures r == EnrollmentAnswer(conflict, open && !stopping,
                   Perform(store.digest, old(store.file.contents), old(Memory(store.state, store.failed)),
                           Enroll(key, secret, now), outcome).response)
    {
      if conflict { return Failed(Rejected(Route)); }
      if stopping || !open { return Failed(Ended); }
      r := store.EnrollDevice(key, secret, now, outcome);
    }

    method OnInvite(exclude: Option<string>, secret: string, now: Instant, outcome: SaveOutcome) returns (r: Response)
      requires Enabled(View(), Invite(exclude, secret, now, outcome))
      modifies store`state, store`failed, store.file
      ensures View() == React(store.digest, old(View()), Invite(exclude, secret, now, outcome))
    {
      r := store.Invite(exclude, secret, now, outcome);
    }

    method OnChanged()
      modifies this`timer
      ensures View() == React(store.digest, old(View()), Changed)
    {
      timer := true;
    }

    method StopRuntime()
      modifies this`generations, this`current
      ensures View() == StopCurrent(old(View()))
    {
      if current.Some? {
        generations := generations - {current.value};
      }
      current := None;
    }

    /** The reload timer's step, up to the end of `await old?.stop()`. */
    method OnTimer(stops: bool)
      requires Enabled(View(), Timer(stops))
      modifies this
      ensures View() == React(store.digest, old(View()), Timer(stops))
    {
      timer := false;
      if stopping { return; }
      StopRuntime();
      stage := if stops then Launching else Idle;
    }

    /** A grant or revoke command, up to the end of `await old?.stop()`. */
    method OnCommand(change: Change, stops: bool)
      requires Enabled(View(), Begin(change, stops))
      modifies this
      ensures View() == React(store.digest, old(View()), Begin(change, stops))
    {
      if store.failed || FindDevice(store.state.devices, change.key).None? { return; }
      if change.Regrant? && !ValidGrant(change.ports) { return; }
      StopRuntime();
      stage := if stops then Changing(change) else Idle;
    }

    /** The rest of the command, up to the call of `launch`. */
    method ApplyChange(outcome: SaveOutcome)
      requires Enabled(View(), Apply(outcome))
      modifies this`stage, store`state, store`failed, store.file
      ensures View() == React(store.digest, old(View()), Apply(outcome))
    {
      var r;
      match stage.change {
        case Regrant(key, ports) => r := store.Grant(key, ports, outcome);
        case Unpair(key) => r := store.RevokeDevice(key, outcome);
      }
      stage := if r.Done? then Launching else Idle;
    }

    /** `launch` */
    method LaunchRuntime(starts: bool)
      requires Enabled(View(), Launch(starts))
      modifies this
      ensures View() == React(store.digest, old(View()), Launch(starts))
    {
      stage := Idle;
      if store.failed || !starts { return; }
      var devices := store.state.devices;
      generations := generations[launched := devices];
      current := Some(launched);
      launched := launched + 1;
    }

    method OnStop()
      modifies this`stopping, this`timer
      ensures View() == React(store.digest, old(View()), BeginStop)
    {
      stopping, timer := true, false;
    }

    method FinishStopping()
      requires Enabled(View(), FinishStop)
      modifies this
      ensures View() == React(store.digest, old(View()), FinishStop)
    {
      StopRuntime();
      stopped := true;
    }
  }
}
