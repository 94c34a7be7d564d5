/** The engine's peer sessions: greeting, status reports, and the single write toward the TUN device. */
module EngineSessions {
  import opened Common
  import opened Addresses
  import opened Packets
  import opened FlowTable
  import opened Invitations

  type PeerKey = string

  /** The protocol greeting, "Kepos VPN IPv4 v1" and three zero bytes. */
  const HELLO: seq<byte> := [75, 101, 112, 111, 115, 32, 86, 80, 78, 32, 73, 80, 118, 52, 32, 118, 49, 0, 0, 0]

  lemma GreetingIsNotEnrollment()
    ensures !HasEnrollmentPrefix(HELLO)
  {
    assert Ascii(HELLO)[6] == 'V' && ENROLLMENT_PREFIX[6] == 'e';
  }

  /** One stream to a peer, from `attach` on. */
  datatype Session = Session(peer: PeerKey, ready: bool, first: bool, closed: bool, policy: Table)

  /** A packet handed to a session's stream. */
  datatype Dispatch = Dispatch(session: nat, packet: seq<byte>)

  /** `sessions` is the engine's map; `records` keeps every session ever attached; `reports` the status calls per peer;
      `writes` the sessions whose packet is being written to the TUN device; `sent` the packets handed to peers. */
  datatype Engine = Engine(sessions: map<PeerKey, nat>, records: map<nat, Session>, tunWriting: bool, writes: seq<nat>,
                           stopping: bool, reports: map<PeerKey, seq<bool>>, sent: seq<Dispatch>)

  /** The configured peers with the policy each session starts from, the peers by address, and whether enrollment is
      on. */
  datatype Setup = Setup(policies: map<PeerKey, Config>, byAddress: map<string, PeerKey>, enrollment: bool)

  datatype Event =
    | Attach(peer: PeerKey, id: nat)
    | Frame(session: nat, bytes: seq<byte>, now: int)   // the receive callback of a session
    | WriteDone(writer: nat)
    | Close(stream: nat)
    | Outgoing(packet: seq<byte>, at: int)              // a packet from the TUN device
    | Stop

  function ReportsOf(e: Engine, peer: PeerKey): seq<bool> {
    if peer in e.reports then e.reports[peer] else []
  }

  function Report(e: Engine, peer: PeerKey, connected: bool): Engine {
    e.(reports := e.reports[peer := ReportsOf(e, peer) + [connected]])
  }

  /** The callback runs to its decision only for the peer's current session of a running engine. */
  predicate Current(e: Engine, id: nat) {
    id in e.records && e.records[id].peer in e.sessions && e.sessions[e.records[id].peer] == id && !e.stopping
  }

  predicate Enabled(setup: Setup, e: Engine, v: Event) {
    match v
    case Attach(peer, id) => peer in setup.policies && id !in e.records
    case Frame(id, _, _) => id in e.records && e.records[id].peer in setup.policies
    case WriteDone(id) => id in e.writes
    case Close(id) => id in e.records && !e.records[id].closed
    case Outgoing(_, _) => true
    case Stop => !e.stopping
  }

  function Cleared(t: Table): Table {
    t.(flows := map[], closed := [])
  }

  /** What the policy of session `id` answers to a frame. */
  function Consult(setup: Setup, e: Engine, id: nat, bytes: seq<byte>, now: int): Outcome
    requires Enabled(setup, e, Frame(id, bytes, now))
  {
    var s := e.records[id];
    var config := setup.policies[s.peer];
    Admit(config, s.policy, Classify(bytes, In, config.localAddress, config.peerAddress), In, now)
  }

  function OnFirstFrame(setup: Setup, e: Engine, id: nat, bytes: seq<byte>): Engine
    requires id in e.records
  {
    if (setup.enrollment && HasEnrollmentPrefix(bytes)) || bytes != HELLO then
      e.(records := e.records[id := e.records[id].(first := false)])
    else Greeted(e, id)
  }

  function OnFrame(setup: Setup, e: Engine, id: nat, bytes: seq<byte>, now: int): Engine
    requires Enabled(setup, e, Frame(id, bytes, now))
  {
    var s := e.records[id];
    if !Current(e, id) then e
    else if s.first then OnFirstFrame(setup, e, id, bytes)
    else if !s.ready || e.tunWriting then e
    else Deliver(e, id, Consult(setup, e, id, bytes, now))
  }

  /** The policy has answered: an admitted packet starts its way to the TUN device. */
  function Deliver(e: Engine, id: nat, outcome: Outcome): Engine
    requires id in e.records
  {
    var after := e.(records := e.records[id := e.records[id].(policy := outcome.table)]);
    if outcome.admitted then after.(tunWriting := true, writes := e.writes + [id]) else after
  }

  /** The greeting has arrived. */
  function Greeted(e: Engine, id: nat): Engine
    requires id in e.records
  {
    var s := e.records[id].(first := false, ready := true);
    Report(e.(records := e.records[id := s]), s.peer, true)
  }

  function RemoveFirst(s: seq<nat>, id: nat): seq<nat> {
    if s == [] then [] else if s[0] == id then s[1..] else [s[0]] + RemoveFirst(s[1..], id)
  }

  function OnClose(e: Engine, id: nat): Engine
    requires id in e.records
  {
    var s := e.records[id];
    var gone := e.(records := e.records[id := s.(closed := true, ready := false, policy := Cleared(s.policy))],
                   sessions := if s.peer in e.sessions && e.sessions[s.peer] == id then e.sessions - {s.peer}
                     else e.sessions);
    if s.ready then Report(gone, s.peer, false) else gone
  }

  /** A session that `stop` finds in the map. */
  predicate Found(e: Engine, id: nat)
    requires id in e.records
  {
    e.records[id].peer in e.sessions && e.sessions[e.records[id].peer] == id
  }

  /** The peer has a current session that has been greeted. */
  predicate Connected(e: Engine, peer: PeerKey) {
    peer in e.sessions && e.sessions[peer] in e.records && e.records[e.sessions[peer]].ready
  }

  function ConnectedAmong(e: Engine, peers: set<PeerKey>): set<PeerKey> {
    set p | p in peers && Connected(e, p)
  }

  function Quiet(s: Session): Session {
    s.(ready := false, policy := Cleared(s.policy))
  }

  /** The sessions of these peers lose their readiness and their flows; those that were connected are reported. */
  function Halt(e: Engine, peers: set<PeerKey>): Engine {
    e.(records := map id | id in e.records ::
                    if Found(e, id) && e.records[id].peer in peers
                    then Quiet(e.records[id]) else e.records[id],
       reports := map p | p in e.reports.Keys + ConnectedAmong(e, peers) ::
                    if p in peers && Connected(e, p) then ReportsOf(e, p) + [false] else ReportsOf(e, p))
  }

  function OnStop(e: Engine): Engine {
    Halt(e, e.sessions.Keys).(stopping := true, sessions := map[])
  }

  /** The session a packet from the TUN device is for: the ready one of the peer that has the destination address. */
  function Destination(setup: Setup, e: Engine, packet: seq<byte>): (r: Option<nat>)
    ensures r.Some? ==> r.value in e.records && e.records[r.value].ready && e.records[r.value].peer in setup.policies
  {
    if |packet| < 20 || packet[0] / 16 != 4 || AddressAt(packet, 16) !in setup.byAddress then None
    else
      var peer := setup.byAddress[AddressAt(packet, 16)];
      if !Connected(e, peer) || e.records[e.sessions[peer]].peer !in setup.policies then None
        else Some(e.sessions[peer])
  }

  /** What the policy of session `id` answers to a packet from the TUN device. */
  function ConsultOut(setup: Setup, e: Engine, id: nat, packet: seq<byte>, now: int): Outcome
    requires id in e.records && e.records[id].peer in setup.policies
  {
    var config := setup.policies[e.records[id].peer];
    Admit(config, e.records[id].policy, Classify(packet, Out, config.localAddress, config.peerAddress), Out, now)
  }

  function Forward(e: Engine, id: nat, packet: seq<byte>, outcome: Outcome): Engine
    requires id in e.records
  {
    e.(records := e.records[id := e.records[id].(policy := outcome.table)],
       sent := if outcome.admitted then e.sent + [Dispatch(id, packet)] else e.sent)
  }

  function OnOutgoing(setup: Setup, e: Engine, packet: seq<byte>, now: int): Engine {
    var id := Destination(setup, e, packet);
    if id.None? then e else Forward(e, id.value, packet, ConsultOut(setup, e, id.value, packet, now))
  }

  function React(setup: Setup, e: Engine, v: Event): Engine
    requires Enabled(setup, e, v)
  {
    match v
    case Attach(peer, id) =>
      if e.stopping || peer in e.sessions then e
      else e.(sessions := e.sessions[peer := id],
              records := e.records[id := Session(peer, false, true, false, EmptyTable)])
    case Frame(id, bytes, now) => OnFrame(setup, e, id, bytes, now)
    case WriteDone(id) => e.(tunWriting := false, writes := RemoveFirst(e.writes, id))
    case Close(id) => OnClose(e, id)
    case Outgoing(packet, now) => OnOutgoing(setup, e, packet, now)
    case Stop => OnStop(e)
  }

  const Fresh := Engine(map[], map[], false, [], false, map[], [])

  // ---- What every step keeps ----

  ghost predicate Alternates(s: seq<bool>) {
    forall i | 0 <= i < |s| :: s[i] == (i % 2 == 0)
  }

  /** The reports alternate, and say "connected" last exactly if the peer is connected. */
  ghost predicate InStep(reports: seq<bool>, connected: bool) {
    Alternates(reports) && (|reports| % 2 == 1 <==> connected)
  }

  ghost predicate Reported(e: Engine, peer: PeerKey) {
    InStep(ReportsOf(e, peer), Connected(e, peer))
  }

  lemma ReportFlips(reports: seq<bool>, connected: bool)
    requires InStep(reports, !connected)
    ensures InStep(reports + [connected], connected)
  {
  }

  ghost predicate Sound(e: Engine) {
    && (forall p | p in e.sessions ::
          e.sessions[p] in e.records && e.records[e.sessions[p]].peer == p && !e.records[e.sessions[p]].closed)
    && (forall id | id in e.records && e.records[id].ready ::
          Found(e, id) && !e.records[id].first && !e.records[id].closed)
    && (forall p :: Reported(e, p))
    && (e.stopping ==> e.sessions == map[])
    && |e.writes| == if e.tunWriting then 1 else 0
  }

  lemma ReportAppends(e: Engine, peer: PeerKey, connected: bool, p: PeerKey)
    ensures ReportsOf(Report(e, peer, connected), p) == ReportsOf(e, p) + if p == peer then [connected] else []
  {
  }

  lemma DeliverSound(e: Engine, id: nat, outcome: Outcome)
    requires Sound(e) && id in e.records && !e.tunWriting
    ensures Sound(Deliver(e, id, outcome))
  {
    var f := Deliver(e, id, outcome);
    forall p ensures Reported(f, p) {
      assert Reported(e, p);
    }
  }

  lemma GreetedReports(e: Engine, id: nat, p: PeerKey)
    requires Sound(e) && id in e.records && Current(e, id) && e.records[id].first && Reported(e, p)
    ensures Reported(Greeted(e, id), p)
  {
    var peer := e.records[id].peer;
    var s := e.records[id].(first := false, ready := true);
    ReportAppends(e.(records := e.records[id := s]), peer, true, p);
    if p == peer {
      ReportFlips(ReportsOf(e, p), true);
    }
  }

  lemma GreetedSound(e: Engine, id: nat)
    requires Sound(e) && id in e.records && Current(e, id) && e.records[id].first
    ensures Sound(Greeted(e, id))
  {
    var f, peer := Greeted(e, id), e.records[id].peer;
    forall p ensures Reported(f, p) {
      assert Reported(e, p);
      GreetedReports(e, id, p);
    }
  }

  lemma SeenSound(e: Engine, id: nat)
    requires Sound(e) && id in e.records && e.records[id].first
    ensures Sound(e.(records := e.records[id := e.records[id].(first := false)]))
  {
    var f := e.(records := e.records[id := e.records[id].(first := false)]);
    forall p ensures Reported(f, p) {
      assert Reported(e, p);
    }
  }

  lemma FrameSound(setup: Setup, e: Engine, id: nat, bytes: seq<byte>, now: int)
    requires Sound(e) && Enabled(setup, e, Frame(id, bytes, now))
    ensures Sound(OnFrame(setup, e, id, bytes, now))
  {
    if Current(e, id) {
      if e.records[id].first {
        SeenSound(e, id);
        GreetedSound(e, id);
      } else if !e.tunWriting {
        DeliverSound(e, id, Consult(setup, e, id, bytes, now));
      }
    }
  }

  /** Closing a ready session disconnects its peer, and no other. */
  lemma CloseConnection(e: Engine, id: nat, p: PeerKey)
    requires Sound(e) && id in e.records
    ensures Connected(OnClose(e, id), p) <==> Connected(e, p) && !(e.records[id].ready && p == e.records[id].peer)
    ensures ReportsOf(OnClose(e, id), p) ==
            ReportsOf(e, p) + if e.records[id].ready && p == e.records[id].peer then [false] else []
  {
  }

  lemma CloseReports(e: Engine, id: nat, p: PeerKey)
    requires Sound(e) && id in e.records
    ensures Reported(OnClose(e, id), p)
  {
    CloseConnection(e, id, p);
    assert Reported(e, p);
    if e.records[id].ready && p == e.records[id].peer {
      ReportFlips(ReportsOf(e, p), false);
    }
  }

  lemma CloseSound(e: Engine, id: nat)
    requires Sound(e) && id in e.records
    ensures Sound(OnClose(e, id))
  {
    forall p ensures Reported(OnClose(e, id), p) {
      CloseReports(e, id, p);
    }
  }

  lemma HaltReports(e: Engine, peers: set<PeerKey>, p: PeerKey)
    ensures ReportsOf(Halt(e, peers), p)
            == if p in peers && Connected(e, p) then ReportsOf(e, p) + [false] else ReportsOf(e, p)
  {
  }

  lemma StopReports(e: Engine, p: PeerKey)
    requires Sound(e)
    ensures Reported(OnStop(e), p)
  {
    HaltReports(e, e.sessions.Keys, p);
    assert Reported(e, p);
    assert ReportsOf(OnStop(e), p) == ReportsOf(Halt(e, e.sessions.Keys), p);
    if Connected(e, p) {
      ReportFlips(ReportsOf(e, p), false);
    }
  }

  lemma NothingReadyAfterStop(e: Engine, id: nat)
    requires Sound(e) && id in e.records
    ensures id in OnStop(e).records && !OnStop(e).records[id].ready
  {
    HaltRecord(e, e.sessions.Keys, id);
  }

  lemma StopSound(e: Engine)
    requires Sound(e)
    ensures Sound(OnStop(e))
  {
    forall p ensures Reported(OnStop(e), p) {
      StopReports(e, p);
    }
    forall id | id in OnStop(e).records ensures !OnStop(e).records[id].ready {
      NothingReadyAfterStop(e, id);
    }
  }

  lemma AttachSound(setup: Setup, e: Engine, peer: PeerKey, id: nat)
    requires Sound(e) && Enabled(setup, e, Attach(peer, id))
    ensures Sound(React(setup, e, Attach(peer, id)))
  {
    var f := React(setup, e, Attach(peer, id));
    forall p ensures Reported(f, p) {
      assert Reported(e, p);
    }
  }

  lemma ForwardSound(e: Engine, id: nat, packet: seq<byte>, outcome: Outcome)
    requires Sound(e) && id in e.records
    ensures Sound(Forward(e, id, packet, outcome))
  {
    var f := Forward(e, id, packet, outcome);
    forall p ensures Reported(f, p) {
      assert Reported(e, p);
    }
  }

  lemma OutgoingSound(setup: Setup, e: Engine, packet: seq<byte>, now: int)
    requires Sound(e)
    ensures Sound(OnOutgoing(setup, e, packet, now))
  {
    var id := Destination(setup, e, packet);
    if id.Some? {
      ForwardSound(e, id.value, packet, ConsultOut(setup, e, id.value, packet, now));
    }
  }

  lemma WriteDoneSound(e: Engine, id: nat)
    requires Sound(e) && id in e.writes
    ensures Sound(e.(tunWriting := false, writes := RemoveFirst(e.writes, id)))
  {
    var f := e.(tunWriting := false, writes := RemoveFirst(e.writes, id));
    forall p ensures Reported(f, p) {
      assert Reported(e, p);
    }
  }

  lemma ReactSound(setup: Setup, e: Engine, v: Event)
    requires Sound(e) && Enabled(setup, e, v)
    ensures Sound(React(setup, e, v))
  {
    match v
    case Attach(peer, id) => AttachSound(setup, e, peer, id);
    case Frame(id, bytes, now) => FrameSound(setup, e, id, bytes, now);
    case WriteDone(id) => WriteDoneSound(e, id);
    case Close(id) => CloseSound(e, id);
    case Outgoing(packet, now) => OutgoingSound(setup, e, packet, now);
    case Stop => StopSound(e);
  }

  // ---- Whole runs ----

  datatype Run = Run(events: seq<Event>, engines: seq<Engine>)

  ghost predicate Happens(setup: Setup, r: Run, n: nat)
    requires n < |r.events| && |r.engines| == |r.events| + 1
  {
    Enabled(setup, r.engines[n], r.events[n]) && r.engines[n + 1] == React(setup, r.engines[n], r.events[n])
  }

  ghost predicate IsRun(setup: Setup, r: Run) {
    && |r.engines| == |r.events| + 1 && r.engines[0] == Fresh
    && forall n | 0 <= n < |r.events| :: Happens(setup, r, n)
  }

  lemma {:induction false} ReachableSound(setup: Setup, r: Run, n: nat)
    requires IsRun(setup, r) && n <= |r.events|
    ensures Sound(r.engines[n])
  {
    if n > 0 {
      ReachableSound(setup, r, n - 1);
      assert Happens(setup, r, n - 1);
      ReactSound(setup, r.engines[n - 1], r.events[n - 1]);
    } else {
      assert forall p :: Reported(Fresh, p);
    }
  }

  /** Status reports for a peer alternate, starting with connected; once the engine is stopping the last one is
      disconnected; and at most one write toward the TUN device is in flight. */
  lemma ReportsAlternate(setup: Setup, r: Run, n: nat, peer: PeerKey)
    requires IsRun(setup, r) && n <= |r.events|
    ensures var s := ReportsOf(r.engines[n], peer);
            && (forall i | 0 <= i < |s| :: s[i] == (i % 2 == 0))
            && (r.engines[n].stopping && s != [] ==> !s[|s| - 1])
    ensures |r.engines[n].writes| <= 1
  {
    ReachableSound(setup, r, n);
    assert Reported(r.engines[n], peer);
  }

  /** The event starts a write toward the TUN device. */
  ghost predicate StartsWrite(r: Run, n: nat)
    requires n < |r.events| && |r.engines| == |r.events| + 1
  {
    r.events[n].Frame? && r.engines[n + 1].writes != r.engines[n].writes
  }

  /** Event `g` is the greeting that made the session ready. */
  ghost predicate Greets(r: Run, g: nat, id: nat)
    requires g < |r.events| && |r.engines| == |r.events| + 1
  {
    r.events[g].Frame? && r.events[g].session == id && r.events[g].bytes == HELLO && Current(r.engines[g], id)
  }

  lemma ReadinessStep(setup: Setup, e: Engine, v: Event, id: nat)
    requires Enabled(setup, e, v) && id in React(setup, e, v).records && React(setup, e, v).records[id].ready
    ensures || (id in e.records && e.records[id].ready)
            || (v.Frame? && v.session == id && v.bytes == HELLO && Current(e, id))
  {
  }

  lemma {:induction false} ReadyWasGreeted(setup: Setup, r: Run, n: nat, id: nat) returns (g: nat)
    requires IsRun(setup, r) && n <= |r.events| && id in r.engines[n].records && r.engines[n].records[id].ready
    ensures g < n && Greets(r, g, id)
  {
    assert Happens(setup, r, n - 1);
    ReadinessStep(setup, r.engines[n - 1], r.events[n - 1], id);
    if id in r.engines[n - 1].records && r.engines[n - 1].records[id].ready {
      g := ReadyWasGreeted(setup, r, n - 1, id);
    } else {
      g := n - 1;
    }
  }

  /** A packet starts toward the TUN device only on the peer's current session, after that session's greeting, while no
      other write is in flight, and only if that session's policy admits it. */
  lemma WriteFollowsGreeting(setup: Setup, r: Run, n: nat) returns (g: nat)
    requires IsRun(setup, r) && n < |r.events| && StartsWrite(r, n)
    ensures var id := r.events[n].session;
            && Current(r.engines[n], id) && r.engines[n].records[id].ready
            && r.engines[n].writes == [] && r.engines[n + 1].writes == [id]
            && Enabled(setup, r.engines[n], r.events[n])
            && Consult(setup, r.engines[n], id, r.events[n].bytes, r.events[n].now).admitted
            && g < n && Greets(r, g, id)
  {
    assert Happens(setup, r, n);
    ReachableSound(setup, r, n);
    g := ReadyWasGreeted(setup, r, n, r.events[n].session);
  }

  /** Every packet started toward the TUN device carries the address configured for its session's peer, and this
      machine's. */
  lemma WrittenPacketsAreBound(setup: Setup, r: Run, n: nat)
    requires IsRun(setup, r) && n < |r.events| && StartsWrite(r, n)
    ensures var id, bytes := r.events[n].session, r.events[n].bytes;
            && id in r.engines[n].records && r.engines[n].records[id].peer in setup.policies && |bytes| >= 20
            && var config := setup.policies[r.engines[n].records[id].peer];
               Dotted(bytes[12..16]) == config.peerAddress && Dotted(bytes[16..20]) == config.localAddress
  {
    var g := WriteFollowsGreeting(setup, r, n);
    var config := setup.policies[r.engines[n].records[r.events[n].session].peer];
    AddressesAreBound(r.events[n].bytes, In, config.localAddress, config.peerAddress);
  }

  /** The event hands a packet to a peer. */
  ghost predicate Sends(r: Run, n: nat)
    requires n < |r.events| && |r.engines| == |r.events| + 1
  {
    r.engines[n + 1].sent != r.engines[n].sent
  }

  lemma SendStep(setup: Setup, e: Engine, v: Event)
    requires Enabled(setup, e, v) && React(setup, e, v).sent != e.sent
    ensures v.Outgoing? && Destination(setup, e, v.packet).Some?
    ensures var id := Destination(setup, e, v.packet).value;
            && ConsultOut(setup, e, id, v.packet, v.at).admitted
            && React(setup, e, v).sent == e.sent + [Dispatch(id, v.packet)]
  {
  }

  /** A packet is handed to a peer only on that peer's current session, after its greeting, if its policy admits it; and
      the packet carries this machine's address as source and the peer's as destination. */
  lemma SentFollowsGreeting(setup: Setup, r: Run, n: nat) returns (id: nat, g: nat)
    requires IsRun(setup, r) && n < |r.events| && Sends(r, n)
    ensures r.events[n].Outgoing? && r.engines[n + 1].sent == r.engines[n].sent + [Dispatch(id, r.events[n].packet)]
    ensures Current(r.engines[n], id) && r.engines[n].records[id].ready
            && r.engines[n].records[id].peer in setup.policies
    ensures ConsultOut(setup, r.engines[n], id, r.events[n].packet, r.events[n].at).admitted
    ensures g < n && Greets(r, g, id)
    ensures var config, packet := setup.policies[r.engines[n].records[id].peer], r.events[n].packet;
            |packet| >= 20 && Dotted(packet[12..16]) == config.localAddress
              && Dotted(packet[16..20]) == config.peerAddress
  {
    assert Happens(setup, r, n);
    SendStep(setup, r.engines[n], r.events[n]);
    id := Destination(setup, r.engines[n], r.events[n].packet).value;
    ReachableSound(setup, r, n);
    g := ReadyWasGreeted(setup, r, n, id);
    var config := setup.policies[r.engines[n].records[id].peer];
    AddressesAreBound(r.events[n].packet, Out, config.localAddress, config.peerAddress);
  }

  /** A frame on a session that is past its first one. */
  predicate LaterFrame(e: Engine, v: Event) {
    v.Frame? && v.session in e.records && !e.records[v.session].first
  }

  /** While a write is in flight nothing that arrives leaves a trace: after any number of frames, from any sessions, the
      engine is as it was, every policy's table included. */
  lemma {:induction false} BusyDropsChangeNothing(setup: Setup, r: Run, a: nat, b: nat)
    requires IsRun(setup, r) && a <= b <= |r.events| && r.engines[a].tunWriting
    requires forall n | a <= n < b :: LaterFrame(r.engines[a], r.events[n])
    ensures r.engines[b] == r.engines[a]
    decreases b
  {
    if a < b {
      var n: nat := b - 1;
      BusyDropsChangeNothing(setup, r, a, n);
      assert Happens(setup, r, n);
    }
  }

  /** The first frame of a running engine's current session connects it if and only if it is the greeting, with or
      without enrollment. */
  lemma FirstFrameConnects(setup: Setup, e: Engine, id: nat, bytes: seq<byte>, now: int)
    requires Sound(e) && Enabled(setup, e, Frame(id, bytes, now)) && Current(e, id) && e.records[id].first
    ensures Connected(React(setup, e, Frame(id, bytes, now)), e.records[id].peer) <==> bytes == HELLO
  {
    GreetingIsNotEnrollment();
  }

  // ---- The engine object ----

  /** The variables that the engine's callbacks share. */
  class VpnEngine {
    const setup: Setup
    var sessions: map<PeerKey, nat>
    var records: map<nat, Session>
    var tunWriting: bool
    var stopping: bool
    ghost var writes: seq<nat>
    ghost var reports: map<PeerKey, seq<bool>>
    ghost var sent: seq<Dispatch>

    ghost function View(): Engine
      reads this
    {
      Engine(sessions, records, tunWriting, writes, stopping, reports, sent)
    }

    constructor (setup: Setup)
      ensures View() == Fresh && this.setup == setup
    {
      this.setup := setup;
      sessions, records, tunWriting, stopping := map[], map[], false, false;
      writes, reports, sent := [], map[], [];
    }

    /** `peerStatus` */
    method PeerStatus(peer: PeerKey, connected: bool)
      modifies this`reports
      ensures View() == Report(old(View()), peer, connected)
    {
      reports := Report(View(), peer, connected).reports;
    }

    /** `attach` */
    method AttachStream(peer: PeerKey, id: nat)
      requires Enabled(setup, View(), Attach(peer, id))
      modifies this`sessions, this`records
      ensures View() == React(setup, old(View()), Attach(peer, id))
    {
      if stopping || peer in sessions { return; }
      records := records[id := Session(peer, false, true, false, EmptyTable)];
      sessions := sessions[peer := id];
    }

    /** The receive callback on a session's first frame. */
    method FirstFrame(id: nat, bytes: seq<byte>)
      requires Current(View(), id) && records[id].first
      modifies this`records, this`reports
      ensures View() == OnFirstFrame(setup, old(View()), id, bytes)
    {
      var session := records[id].(first := false);
      records := records[id := session];
      if setup.enrollment && HasEnrollmentPrefix(bytes) { return; }
      if bytes != HELLO { return; }
      records := records[id := session.(ready := true)];
      PeerStatus(session.peer, true);
    }

    /** The receive callback of a session, up to the start of the write. */
    method ReceiveFrame(id: nat, bytes: seq<byte>, now: int) returns (writing: bool)
      requires Enabled(setup, View(), Frame(id, bytes, now))
      modifies this
      ensures View() == OnFrame(setup, old(View()), id, bytes, now)
      ensures writing <==> writes != old(writes)
    {
      var session := records[id];
      if session.peer !in sessions || sessions[session.peer] != id || stopping { return false; }
      if session.first {
        FirstFrame(id, bytes);
        return false;
      }
      if !session.ready { return false; }
      if tunWriting { return false; }
      var config := setup.policies[session.peer];
      var outcome := Admit(config, session.policy, Classify(bytes, In, config.localAddress, config.peerAddress), In,
                           now);
      records := records[id := session.(policy := outcome.table)];
      writing := outcome.admitted;
      if writing {
        tunWriting := true;
        writes := writes + [id];
      }
    }

    method WriteFinished(id: nat)
      requires Enabled(setup, View(), WriteDone(id))
      modifies this`tunWriting, this`writes
      ensures View() == React(setup, old(View()), WriteDone(id))
    {
      tunWriting := false;
      writes := RemoveFirst(writes, id);
    }

    /** The stream's `close` handler. */
    method StreamClosed(id: nat)
      requires Enabled(setup, View(), Close(id))
      modifies this
      ensures View() == React(setup, old(View()), Close(id))
    {
      var session := records[id];
      var peer := session.peer;
      if peer in sessions && sessions[peer] == id {
        sessions := sessions - {peer};
      }
      records := records[id := session.(closed := true, ready := false, policy := Cleared(session.policy))];
      if session.ready {
        PeerStatus(peer, false);
      }
    }

    /** The TUN receive callback; the result says whether the packet is handed to a peer's stream. */
    method SendOut(packet: seq<byte>, now: int) returns (handed: bool)
      modifies this`records, this`sent
      ensures View() == React(setup, old(View()), Outgoing(packet, now))
      ensures handed <==> sent != old(sent)
    {
      if |packet| < 20 || packet[0] / 16 != 4 { return false; }
      var destination := AddressAt(packet, 16);
      if destination !in setup.byAddress { return false; }
      var peer := setup.byAddress[destination];
      if peer !in sessions || sessions[peer] !in records || !records[sessions[peer]].ready { return false; }
      var id := sessions[peer];
      if records[id].peer !in setup.policies { return false; }
      var config := setup.policies[records[id].peer];
      var outcome := Admit(config, records[id].policy, Classify(packet, Out, config.localAddress, config.peerAddress),
                           Out, now);
      records := records[id := records[id].(policy := outcome.table)];
      handed := outcome.admitted;
      if handed {
        sent := sent + [Dispatch(id, packet)];
      }
    }

    /** One turn of the loop in `stop`. */
    method HaltPeer(peer: PeerKey)
      requires peer in sessions && sessions[peer] in records && records[sessions[peer]].peer == peer
      modifies this`records, this`reports
      ensures View() == HaltOne(old(View()), peer)
    {
      var id := sessions[peer];
      var session := records[id];
      records := records[id := session.(ready := false, policy := Cleared(session.policy))];
      if session.ready {
        PeerStatus(peer, false);
      }
    }

    /** The loop in `stop`. */
    method HaltAll()
      requires Sound(View())
      modifies this`records, this`reports
      ensures View() == Halt(old(View()), old(sessions.Keys))
    {
      ghost var before, done: set<PeerKey> := View(), {};
      var todo := sessions.Keys;
      HaltNone(before);
      while todo != {}
        invariant View() == Halt(before, done)
        invariant done == sessions.Keys - todo && todo <= sessions.Keys
      {
        var peer :| peer in todo;
        HaltOneMore(before, done, peer);
        HaltPeer(peer);
        todo := todo - {peer};
        done := done + {peer};
      }
      assert done == sessions.Keys;
    }

    /** `stop` */
    method StopEngine()
      requires Sound(View()) && Enabled(setup, View(), Stop)
      modifies this
      ensures View() == React(setup, old(View()), Stop)
    {
      HaltAll();
      stopping := true;
      sessions := map[];
    }
  }

  ghost function HaltOne(e: Engine, peer: PeerKey): Engine
    requires peer in e.sessions && e.sessions[peer] in e.records
  {
    var id := e.sessions[peer];
    var quiet := e.(records := e.records[id := Quiet(e.records[id])]);
    if e.records[id].ready then Report(quiet, peer, false) else quiet
  }

  lemma HaltNone(e: Engine)
    ensures Halt(e, {}) == e
  {
    assert ConnectedAmong(e, {}) == {};
    assert Halt(e, {}).records == e.records;
    assert Halt(e, {}).reports == e.reports;
  }

  lemma HaltRecord(e: Engine, peers: set<PeerKey>, id: nat)
    requires id in e.records
    ensures id in Halt(e, peers).records
    ensures Halt(e, peers).records[id] ==
            if Found(e, id) && e.records[id].peer in peers then Quiet(e.records[id]) else e.records[id]
  {
  }

  lemma HaltOneMoreRecords(e: Engine, done: set<PeerKey>, peer: PeerKey)
    requires peer in e.sessions && e.sessions[peer] in e.records && e.records[e.sessions[peer]].peer == peer
             && peer !in done
    ensures var h := Halt(e, done);
            && peer in h.sessions && h.sessions[peer] in h.records
               && h.records[h.sessions[peer]] == e.records[e.sessions[peer]]
            && HaltOne(h, peer).records == Halt(e, done + {peer}).records
  {
    var current := e.sessions[peer];
    HaltRecord(e, done, current);
    var left, right := Halt(e, done).records[current := Quiet(e.records[current])], Halt(e, done + {peer}).records;
    assert left.Keys == right.Keys == e.records.Keys;
    forall id | id in e.records ensures left[id] == right[id] {
      HaltRecord(e, done, id);
      HaltRecord(e, done + {peer}, id);
    }
    assert left == right;
  }

  lemma HaltOneReports(e: Engine, peer: PeerKey, p: PeerKey)
    requires peer in e.sessions && e.sessions[peer] in e.records
    ensures HaltOne(e, peer).reports.Keys == e.reports.Keys + if e.records[e.sessions[peer]].ready then {peer} else {}
    ensures ReportsOf(HaltOne(e, peer), p) ==
            ReportsOf(e, p) + if p == peer && e.records[e.sessions[peer]].ready then [false] else []
  {
  }

  lemma HaltOneMoreReports(e: Engine, done: set<PeerKey>, peer: PeerKey)
    requires peer in e.sessions && e.sessions[peer] in e.records && peer !in done
    requires e.sessions[peer] in Halt(e, done).records
             && Halt(e, done).records[e.sessions[peer]] == e.records[e.sessions[peer]]
    ensures HaltOne(Halt(e, done), peer).reports == Halt(e, done + {peer}).reports
  {
    var h, k := Halt(e, done), Halt(e, done + {peer});
    var left, right := HaltOne(h, peer).reports, k.reports;
    HaltKeys(e, done, peer);
    HaltOneReports(h, peer, peer);
    assert left.Keys == right.Keys;
    forall p | p in right ensures left[p] == right[p] {
      HaltReports(e, done, p);
      HaltReports(e, done + {peer}, p);
      HaltOneReports(h, peer, p);
      assert right[p] == ReportsOf(k, p) && left[p] == ReportsOf(HaltOne(h, peer), p);
    }
  }

  lemma HaltKeys(e: Engine, done: set<PeerKey>, peer: PeerKey)
    ensures Halt(e, done + {peer}).reports.Keys
            == Halt(e, done).reports.Keys + if Connected(e, peer) then {peer} else {}
  {
    ConnectedAmongOneMore(e, done, peer);
    assert Halt(e, done).reports.Keys == e.reports.Keys + ConnectedAmong(e, done);
    assert Halt(e, done + {peer}).reports.Keys == e.reports.Keys + ConnectedAmong(e, done + {peer});
  }

  lemma ConnectedAmongOneMore(e: Engine, done: set<PeerKey>, peer: PeerKey)
    ensures ConnectedAmong(e, done + {peer}) == ConnectedAmong(e, done) + if Connected(e, peer) then {peer} else {}
  {
  }

  lemma HaltOneMore(e: Engine, done: set<PeerKey>, peer: PeerKey)
    requires Sound(e) && peer in e.sessions && peer !in done
    ensures var h := Halt(e, done);
            && peer in h.sessions && h.sessions[peer] in h.records && h.records[h.sessions[peer]].peer == peer
            && HaltOne(h, peer) == Halt(e, done + {peer})
  {
    HaltOneMoreRecords(e, done, peer);
    HaltOneMoreReports(e, done, peer);
  }
}
