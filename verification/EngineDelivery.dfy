/** What does get through the engine: when a session serves and is ready, when a packet is written to the TUN device or
    handed to a peer, each as an equivalence on the events of the run. */
module EngineDelivery {
  import opened Common
  import opened Addresses
  import opened Packets
  import opened FlowTable
  import opened PolicyHistory
  import opened FlowAdmission
  import opened PacketRoundTrips
  import opened EngineSessions
  import opened EngineTraces

  /** How far a stream has come: not its peer's session, attached without a frame yet, or past its first frame. */
  datatype Status = Away | Silent | Heard(greeted: bool)

  function StatusOf(e: Engine, id: nat): Status {
    if id !in e.records || !Found(e, id) then Away
    else if e.records[id].first then Silent
    else Heard(e.records[id].ready)
  }

  function NextStatus(e: Engine, v: Event, id: nat): Status {
    var was := StatusOf(e, id);
    match v
    case Attach(peer, stream) => if stream == id && peer !in e.sessions && !e.stopping then Silent else was
    case Frame(session, bytes, _) => if session == id && was.Silent? then Heard(bytes == HELLO) else was
    case Close(stream) => if stream == id then Away else was
    case Stop => Away
    case _ => was
  }

  /** The part of the engine's invariant that the status needs. */
  ghost predicate Orderly(e: Engine) {
    && (forall p | p in e.sessions :: e.sessions[p] in e.records && e.records[e.sessions[p]].peer == p)
    && (forall id | id in e.records && e.records[id].ready :: Found(e, id) && !e.records[id].first)
    && (e.stopping ==> e.sessions == map[])
  }

  lemma SoundIsOrderly(e: Engine)
    requires Sound(e)
    ensures Orderly(e)
  {
  }

  lemma FirstFrameStatus(setup: Setup, e: Engine, session: nat, bytes: seq<byte>, id: nat)
    requires Orderly(e) && session in e.records && Found(e, session) && e.records[session].first
    ensures StatusOf(OnFirstFrame(setup, e, session, bytes), id) ==
            if session == id then Heard(bytes == HELLO) else StatusOf(e, id)
  {
    GreetingIsNotEnrollment();
  }

  lemma DeliverStatus(e: Engine, session: nat, outcome: Outcome, id: nat)
    requires session in e.records
    ensures StatusOf(Deliver(e, session, outcome), id) == StatusOf(e, id)
  {
  }

  lemma FrameStatus(setup: Setup, e: Engine, v: Event, id: nat)
    requires Orderly(e) && Enabled(setup, e, v) && v.Frame?
    ensures StatusOf(OnFrame(setup, e, v.session, v.bytes, v.now), id) == NextStatus(e, v, id)
  {
    if Current(e, v.session) {
      var s := e.records[v.session];
      if s.first {
        FirstFrameStatus(setup, e, v.session, v.bytes, id);
      } else if s.ready && !e.tunWriting {
        DeliverStatus(e, v.session, Consult(setup, e, v.session, v.bytes, v.now), id);
      }
    }
  }

  lemma AttachStatus(setup: Setup, e: Engine, v: Event, id: nat)
    requires Orderly(e) && Enabled(setup, e, v) && v.Attach?
    ensures StatusOf(React(setup, e, v), id) == NextStatus(e, v, id)
  {
  }

  lemma OutgoingStatus(setup: Setup, e: Engine, v: Event, id: nat)
    requires v.Outgoing?
    ensures StatusOf(OnOutgoing(setup, e, v.packet, v.at), id) == StatusOf(e, id)
  {
  }

  lemma CloseStatus(setup: Setup, e: Engine, v: Event, id: nat)
    requires Orderly(e) && Enabled(setup, e, v) && v.Close?
    ensures StatusOf(OnClose(e, v.stream), id) == NextStatus(e, v, id)
  {
  }

  lemma StatusStep(setup: Setup, e: Engine, v: Event, id: nat)
    requires Orderly(e) && Enabled(setup, e, v)
    ensures StatusOf(React(setup, e, v), id) == NextStatus(e, v, id)
  {
    match v
    case Attach(_, _) => AttachStatus(setup, e, v, id);
    case Frame(_, _, _) => FrameStatus(setup, e, v, id);
    case Outgoing(_, _) => OutgoingStatus(setup, e, v, id);
    case Close(_) => CloseStatus(setup, e, v, id);
    case _ =>
  }

  // ---- The same from the events of the run ----

  /** Event `a` makes the stream `id` its peer's session: the engine runs and the peer has none. */
  ghost predicate Attaches(r: Run, a: nat, id: nat)
    requires a < |r.events| && |r.engines| == |r.events| + 1
  {
    && r.events[a].Attach? && r.events[a].id == id
    && r.events[a].peer !in r.engines[a].sessions && !r.engines[a].stopping
  }

  /** Neither does the stream close nor the engine stop after event `a`, before event `n`. */
  predicate Lasts(r: Run, id: nat, a: nat, n: nat)
    requires n <= |r.events|
  {
    forall m | a < m < n :: r.events[m] != Close(id) && !r.events[m].Stop?
  }

  /** The session is its peer's current one: attached, and since then neither closed nor stopped. */
  ghost predicate Served(r: Run, id: nat, n: nat)
    requires n <= |r.events| && |r.engines| == |r.events| + 1
  {
    exists a: nat :: a < n && Attaches(r, a, id) && Lasts(r, id, a, n)
  }

  predicate IsFrameOf(v: Event, id: nat) {
    v.Frame? && v.session == id
  }

  /** No frame of the session has come among the first `n` events. */
  predicate Unheard(r: Run, id: nat, n: nat)
    requires n <= |r.events|
  {
    forall m | 0 <= m < n :: !IsFrameOf(r.events[m], id)
  }

  /** Event `g` is the very first frame of the session, comes while the session serves, and is the greeting. */
  ghost predicate GreetsFirst(r: Run, g: nat, id: nat)
    requires g < |r.events| && |r.engines| == |r.events| + 1
  {
    IsFrameOf(r.events[g], id) && r.events[g].bytes == HELLO && Served(r, id, g) && Unheard(r, id, g)
  }

  /** The session has been greeted, and since then neither closed nor stopped. */
  ghost predicate WasGreeted(r: Run, id: nat, n: nat)
    requires n <= |r.events| && |r.engines| == |r.events| + 1
  {
    exists g: nat :: g < n && GreetsFirst(r, g, id) && Lasts(r, id, g, n)
  }

  lemma LastsNext(r: Run, id: nat, a: nat, m: nat, n: nat)
    requires a < m && n == m + 1 <= |r.events|
    ensures Lasts(r, id, a, n) <==> Lasts(r, id, a, m) && r.events[m] != Close(id) && !r.events[m].Stop?
  {
  }

  lemma ServedNext(r: Run, id: nat, m: nat, n: nat)
    requires n == m + 1 <= |r.events| && |r.engines| == |r.events| + 1
    ensures Served(r, id, n) <==>
            Attaches(r, m, id) || (Served(r, id, m) && r.events[m] != Close(id) && !r.events[m].Stop?)
  {
    forall a: nat | a < m
      ensures Lasts(r, id, a, n) <==> Lasts(r, id, a, m) && r.events[m] != Close(id) && !r.events[m].Stop?
    {
      LastsNext(r, id, a, m, n);
    }
    assert Lasts(r, id, m, n);
  }

  lemma WasGreetedNext(r: Run, id: nat, m: nat, n: nat)
    requires n == m + 1 <= |r.events| && |r.engines| == |r.events| + 1
    ensures WasGreeted(r, id, n) <==>
            GreetsFirst(r, m, id) || (WasGreeted(r, id, m) && r.events[m] != Close(id) && !r.events[m].Stop?)
  {
    forall a: nat | a < m
      ensures Lasts(r, id, a, n) <==> Lasts(r, id, a, m) && r.events[m] != Close(id) && !r.events[m].Stop?
    {
      LastsNext(r, id, a, m, n);
    }
    assert Lasts(r, id, m, n);
  }

  /** The status of every stream at every moment, from the events alone. */
  ghost predicate StatusKnown(r: Run, id: nat, n: nat)
    requires n <= |r.events| && |r.engines| == |r.events| + 1
  {
    var status := StatusOf(r.engines[n], id);
    && (status != Away <==> Served(r, id, n))
    && (status == Silent <==> Served(r, id, n) && Unheard(r, id, n))
    && (status == Heard(true) <==> WasGreeted(r, id, n))
    && (id !in r.engines[n].records ==> Unheard(r, id, n))
  }

  lemma RecordsStay(setup: Setup, e: Engine, v: Event, id: nat)
    requires Enabled(setup, e, v) && id in e.records
    ensures id in React(setup, e, v).records
  {
    match v
    case Stop => HaltRecord(e, e.sessions.Keys, id);
    case _ =>
  }

  lemma UnheardNext(r: Run, id: nat, m: nat, n: nat)
    requires n == m + 1 <= |r.events|
    ensures Unheard(r, id, n) <==> Unheard(r, id, m) && !IsFrameOf(r.events[m], id)
  {
  }

  lemma StatusKnownNext(setup: Setup, r: Run, id: nat, m: nat, n: nat)
    requires IsRun(setup, r) && n == m + 1 <= |r.events| && StatusKnown(r, id, m)
    ensures StatusKnown(r, id, n)
  {
    assert Happens(setup, r, m);
    ReachableSound(setup, r, m);
    SoundIsOrderly(r.engines[m]);
    StatusStep(setup, r.engines[m], r.events[m], id);
    ServedNext(r, id, m, n);
    WasGreetedNext(r, id, m, n);
    UnheardNext(r, id, m, n);
    if id in r.engines[m].records {
      RecordsStay(setup, r.engines[m], r.events[m], id);
    }
  }

  lemma {:induction false} StatusAlwaysKnown(setup: Setup, r: Run, id: nat, n: nat)
    requires IsRun(setup, r) && n <= |r.events|
    ensures StatusKnown(r, id, n)
  {
    if n > 0 {
      var m: nat := n - 1;
      StatusAlwaysKnown(setup, r, id, m);
      StatusKnownNext(setup, r, id, m, n);
    }
  }

  lemma ReadyIsHeard(e: Engine, id: nat)
    requires Orderly(e)
    ensures id in e.records && e.records[id].ready <==> StatusOf(e, id) == Heard(true)
  {
  }

  /** Sessions by the events: a session is its peer's current one exactly if it was attached while the peer had none and
      the engine ran, and neither has its stream closed nor the engine stopped since; and it is ready exactly if its
      very first frame was the greeting and came while it served, again with neither since. */
  lemma SessionsExactly(setup: Setup, r: Run, id: nat, n: nat)
    requires IsRun(setup, r) && n <= |r.events|
    ensures id in r.engines[n].records && Found(r.engines[n], id) <==> Served(r, id, n)
    ensures id in r.engines[n].records && r.engines[n].records[id].ready <==> WasGreeted(r, id, n)
  {
    StatusAlwaysKnown(setup, r, id, n);
    ReachableSound(setup, r, n);
    SoundIsOrderly(r.engines[n]);
    ReadyIsHeard(r.engines[n], id);
  }

  // ---- Toward the TUN device ----

  /** A write toward the TUN device has started and not ended. */
  ghost predicate InFlight(r: Run, n: nat)
    requires n <= |r.events| && |r.engines| == |r.events| + 1
  {
    exists w: nat :: w < n && StartsWrite(r, w) && Unfinished(r, w, n)
  }

  predicate Unfinished(r: Run, w: nat, n: nat)
    requires n <= |r.events|
  {
    forall m | w < m < n :: !r.events[m].WriteDone?
  }

  lemma InFlightNext(r: Run, m: nat, n: nat)
    requires n == m + 1 <= |r.events| && |r.engines| == |r.events| + 1
    ensures InFlight(r, n) <==> StartsWrite(r, m) || (InFlight(r, m) && !r.events[m].WriteDone?)
  {
    forall w: nat | w < m ensures Unfinished(r, w, n) <==> Unfinished(r, w, m) && !r.events[m].WriteDone? {
    }
    assert Unfinished(r, m, n);
  }

  lemma WritingStep(setup: Setup, e: Engine, v: Event)
    requires Enabled(setup, e, v)
    ensures React(setup, e, v).tunWriting <==>
              (v.Frame? && React(setup, e, v).writes != e.writes) || (e.tunWriting && !v.WriteDone?)
  {
  }

  lemma {:induction false} WritingExactly(setup: Setup, r: Run, n: nat)
    requires IsRun(setup, r) && n <= |r.events|
    ensures r.engines[n].tunWriting <==> InFlight(r, n)
  {
    if n > 0 {
      var m: nat := n - 1;
      WritingExactly(setup, r, m);
      assert Happens(setup, r, m);
      WritingStep(setup, r.engines[m], r.events[m]);
      InFlightNext(r, m, n);
    }
  }

  lemma FrameWrites(setup: Setup, e: Engine, id: nat, bytes: seq<byte>, now: int)
    requires Orderly(e) && Enabled(setup, e, Frame(id, bytes, now))
    ensures var f, admitted := OnFrame(setup, e, id, bytes, now), Consult(setup, e, id, bytes, now).admitted;
            && (f.writes != e.writes <==> e.records[id].ready && !e.tunWriting && admitted)
            && (f.writes != e.writes ==> f.writes == e.writes + [id])
  {
  }

  /** The policy of session `id` admits the packet, as the session stands after `n` events. */
  ghost predicate Allows(setup: Setup, r: Run, n: nat, id: nat, bytes: seq<byte>, d: Direction, now: int)
    requires n < |r.engines|
  {
    && id in r.engines[n].records && r.engines[n].records[id].peer in setup.policies
    && var config := ConfigOf(setup, r.engines[n], id);
       Perform(config, r.engines[n].records[id].policy,
               Packet(Classify(bytes, d, config.localAddress, config.peerAddress), d, now)).admitted
  }

  /** A frame starts toward the TUN device exactly if its session has been greeted and still serves, no write is in
      flight, and the session's policy admits it; the whole frame is what is written then. */
  lemma WritesExactly(setup: Setup, r: Run, n: nat)
    requires IsRun(setup, r) && n < |r.events| && r.events[n].Frame?
    ensures var v := r.events[n];
            && (StartsWrite(r, n) <==>
                  WasGreeted(r, v.session, n) && !InFlight(r, n) && Allows(setup, r, n, v.session, v.bytes, In, v.now))
            && (StartsWrite(r, n) ==> r.engines[n + 1].writes == r.engines[n].writes + [v.session])
  {
    var v := r.events[n];
    assert Happens(setup, r, n);
    SessionsExactly(setup, r, v.session, n);
    WritingExactly(setup, r, n);
    ReachableSound(setup, r, n);
    SoundIsOrderly(r.engines[n]);
    FrameWrites(setup, r.engines[n], v.session, v.bytes, v.now);
  }

  // ---- Toward the peers ----

  /** The stream is for the destination of the packet: it is the greeted session of the peer with that address. */
  ghost predicate Leads(setup: Setup, r: Run, n: nat, id: nat, packet: seq<byte>)
    requires n <= |r.events| && |r.engines| == |r.events| + 1
  {
    && |packet| >= 20 && packet[0] / 16 == 4 && Dotted(packet[16..20]) in setup.byAddress
    && WasGreeted(r, id, n) && id in r.engines[n].records
    && r.engines[n].records[id].peer == setup.byAddress[Dotted(packet[16..20])]
  }

  lemma DestinationExactly(setup: Setup, e: Engine, packet: seq<byte>, id: nat)
    requires Orderly(e)
    ensures Destination(setup, e, packet) == Some(id) <==>
              && |packet| >= 20 && packet[0] / 16 == 4 && Dotted(packet[16..20]) in setup.byAddress
              && id in e.records && e.records[id].ready && e.records[id].peer in setup.policies
              && e.records[id].peer == setup.byAddress[Dotted(packet[16..20])]
  {
  }

  lemma OutgoingSends(setup: Setup, e: Engine, packet: seq<byte>, now: int)
    ensures var f, to := OnOutgoing(setup, e, packet, now), Destination(setup, e, packet);
            && (f.sent != e.sent <==> to.Some? && ConsultOut(setup, e, to.value, packet, now).admitted)
            && (f.sent != e.sent ==> f.sent == e.sent + [Dispatch(to.value, packet)])
  {
  }

  /** A packet from the TUN device is handed to a stream exactly if it is IPv4, the stream is the greeted session of the
      peer that has its destination address, and that session's policy admits it; it is handed over whole. */
  lemma SendsExactly(setup: Setup, r: Run, n: nat, id: nat)
    requires IsRun(setup, r) && n < |r.events| && r.events[n].Outgoing?
    ensures r.engines[n + 1].sent == r.engines[n].sent + [Dispatch(id, r.events[n].packet)] <==>
              && Leads(setup, r, n, id, r.events[n].packet)
              && Allows(setup, r, n, id, r.events[n].packet, Out, r.events[n].at)
    ensures Sends(r, n) ==> exists to: nat ::
              r.engines[n + 1].sent == r.engines[n].sent + [Dispatch(to, r.events[n].packet)]
  {
    assert Happens(setup, r, n);
    var e, packet := r.engines[n], r.events[n].packet;
    SessionsExactly(setup, r, id, n);
    ReachableSound(setup, r, n);
    SoundIsOrderly(e);
    DestinationExactly(setup, e, packet, id);
    OutgoingSends(setup, e, packet, r.events[n].at);
    LastOf(e.sent, Dispatch(id, packet), r.engines[n + 1].sent);
  }

  lemma LastOf(s: seq<Dispatch>, x: Dispatch, t: seq<Dispatch>)
    ensures t == s + [x] ==> t != s
    ensures forall y :: t == s + [x] && t == s + [y] ==> x == y
  {
    forall y | t == s + [x] && t == s + [y] ensures x == y {
      assert t[|s|] == x;
    }
  }

  // ---- An established connection works ----

  /** Whatever the peer sends on an established connection goes through, octet for octet: a TCP packet built from any
      fields, on the port pair of an established flow, is written to the TUN device when it arrives on the peer's
      greeted session and no write is in flight, unless it is a SYN that could not belong to the connection. */
  lemma EstablishedDataIsWritten(setup: Setup, r: Run, n: nat, h: IpFields, t: TcpFields, now: int, id: nat)
    requires IsRun(setup, r) && n < |r.events| && Sendable(h, t) && r.events[n] == Frame(id, TcpPacket(h, t), now)
    requires WasGreeted(r, id, n) && !InFlight(r, n)
    requires id in r.engines[n].records && r.engines[n].records[id].peer in setup.policies
    requires var config := ConfigOf(setup, r.engines[n], id);
             config.localAddress == LocalOf(h, In) && config.peerAddress == PeerOf(h, In)
    requires EstablishedIn(Sweep(r.engines[n].records[id].policy, now), Key(t.destinationPort, t.sourcePort))
    requires !t.syn || t.ack
    ensures StartsWrite(r, n)
  {
    var config, policy, k := ConfigOf(setup, r.engines[n], id), r.engines[n].records[id].policy,
      Key(t.destinationPort, t.sourcePort);
    TcpRoundTrip(h, t, In);
    SessionPoliciesAreConsistent(setup, r, n, id);
    TrackedAdmittedExactly(config, policy, Packet(Tcp(Meant(t)), In, now), k);
    WritesExactly(setup, r, n);
  }
}
