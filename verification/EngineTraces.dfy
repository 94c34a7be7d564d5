/** Each session's policy, over whole runs of the engine: its table is the end of a legal run of the policy, so
    everything proved about such runs holds for the engine's sessions. */
module EngineTraces {
  import opened Common
  import opened Packets
  import opened FlowTable
  import opened PolicyInvariants
  import opened PolicyHistory
  import opened EngineSessions

  /** The policy of the session's peer. */
  function ConfigOf(setup: Setup, e: Engine, id: nat): Config
    requires id in e.records && e.records[id].peer in setup.policies
  {
    setup.policies[e.records[id].peer]
  }

  function Inbound(config: Config, bytes: seq<byte>, now: int): Call {
    Packet(Classify(bytes, In, config.localAddress, config.peerAddress), In, now)
  }

  function Outbound(config: Config, bytes: seq<byte>, now: int): Call {
    Packet(Classify(bytes, Out, config.localAddress, config.peerAddress), Out, now)
  }

  /** What the event asks of the policy of session `id`, if anything. */
  function CallOf(setup: Setup, e: Engine, v: Event, id: nat): Option<Call>
    requires id in e.records && e.records[id].peer in setup.policies
  {
    match v
    case Frame(session, bytes, now) =>
      var s := e.records[id];
      if session == id && Current(e, id) && !s.first && s.ready && !e.tunWriting
        then Some(Inbound(ConfigOf(setup, e, id), bytes, now))
      else None
    case Outgoing(packet, now) =>
      if Destination(setup, e, packet) == Some(id) then Some(Outbound(ConfigOf(setup, e, id), packet, now)) else None
    case Close(stream) => if stream == id then Some(Clear) else None
    case Stop => if Found(e, id) then Some(Clear) else None
    case _ => None
  }

  function Then(config: Config, t: Table, call: Option<Call>): Table {
    if call.Some? then Perform(config, t, call.value).table else t
  }

  /** The session is there after the event, with its peer, and the call has changed its policy. */
  ghost predicate Carried(setup: Setup, e: Engine, f: Engine, id: nat, call: Option<Call>)
    requires id in e.records && e.records[id].peer in setup.policies
  {
    && id in f.records && f.records[id].peer == e.records[id].peer
    && f.records[id].policy == Then(ConfigOf(setup, e, id), e.records[id].policy, call)
  }

  lemma FrameStep(setup: Setup, e: Engine, v: Event, id: nat)
    requires v.Frame? && Enabled(setup, e, v) && id in e.records && e.records[id].peer in setup.policies
    ensures Carried(setup, e, OnFrame(setup, e, v.session, v.bytes, v.now), id, CallOf(setup, e, v, id))
  {
  }

  lemma OutgoingStep(setup: Setup, e: Engine, v: Event, id: nat)
    requires v.Outgoing? && id in e.records && e.records[id].peer in setup.policies
    ensures Carried(setup, e, OnOutgoing(setup, e, v.packet, v.at), id, CallOf(setup, e, v, id))
  {
  }

  lemma StopStep(setup: Setup, e: Engine, id: nat)
    requires id in e.records && e.records[id].peer in setup.policies
    ensures Carried(setup, e, OnStop(e), id, CallOf(setup, e, Stop, id))
  {
    HaltRecord(e, e.sessions.Keys, id);
  }

  lemma CloseStep(setup: Setup, e: Engine, stream: nat, id: nat)
    requires stream in e.records && id in e.records && e.records[id].peer in setup.policies
    ensures Carried(setup, e, OnClose(e, stream), id, CallOf(setup, e, Close(stream), id))
  {
  }

  /** An event changes the policy of a session only by the call it makes, and never its peer. */
  lemma PolicyStep(setup: Setup, e: Engine, v: Event, id: nat)
    requires Enabled(setup, e, v) && id in e.records && e.records[id].peer in setup.policies
    ensures Carried(setup, e, React(setup, e, v), id, CallOf(setup, e, v, id))
  {
    match v
    case Frame(_, _, _) => FrameStep(setup, e, v, id);
    case Outgoing(_, _) => OutgoingStep(setup, e, v, id);
    case Close(stream) => CloseStep(setup, e, stream, id);
    case Stop => StopStep(setup, e, id);
    case _ =>
  }

  lemma AttachStep(setup: Setup, e: Engine, v: Event, id: nat)
    requires Enabled(setup, e, v) && id !in e.records && id in React(setup, e, v).records
    ensures var s := React(setup, e, v).records[id]; s.peer in setup.policies && s.policy == EmptyTable
  {
  }

  /** A run of the policy and, for each of its calls, the event that made it. */
  datatype Log = Log(trace: Trace, at: seq<nat>)

  ghost predicate Made(setup: Setup, r: Run, id: nat, m: nat, call: Call)
    requires m < |r.events| && |r.engines| == |r.events| + 1
  {
    && id in r.engines[m].records && r.engines[m].records[id].peer in setup.policies
    && CallOf(setup, r.engines[m], r.events[m], id) == Some(call)
  }

  ghost predicate AllMade(setup: Setup, r: Run, id: nat, n: nat, calls: seq<Call>, at: seq<nat>)
    requires n <= |r.events| && |r.engines| == |r.events| + 1
  {
    && |at| == |calls|
    && (forall i | 0 <= i < |at| :: at[i] < n && Made(setup, r, id, at[i], calls[i]))
    && (forall i, j | 0 <= i < j < |at| :: at[i] < at[j])
  }

  /** The log accounts for the session's policy after `n` events. */
  ghost predicate Explains(setup: Setup, r: Run, id: nat, n: nat, log: Log)
    requires n <= |r.events| && |r.engines| == |r.events| + 1
  {
    && id in r.engines[n].records && r.engines[n].records[id].peer in setup.policies
    && IsTrace(ConfigOf(setup, r.engines[n], id), log.trace)
    && log.trace.tables[|log.trace.calls|] == r.engines[n].records[id].policy
    && AllMade(setup, r, id, n, log.trace.calls, log.at)
  }

  lemma CallsAreBare(setup: Setup, e: Engine, v: Event, id: nat)
    requires id in e.records && e.records[id].peer in setup.policies && CallOf(setup, e, v, id).Some?
    ensures var call := CallOf(setup, e, v, id).value; call.Packet? ==> BareSyn(call.input)
  {
    var config := ConfigOf(setup, e, id);
    match v
    case Frame(_, bytes, _) => SynIsBare(bytes, In, config.localAddress, config.peerAddress);
    case Outgoing(packet, _) => SynIsBare(packet, Out, config.localAddress, config.peerAddress);
    case _ =>
  }

  /** The log with one more call, made by event `m`. */
  ghost function Extended(config: Config, log: Log, call: Call, m: nat): Log
    requires |log.trace.tables| == |log.trace.calls| + 1
  {
    var o := Perform(config, log.trace.tables[|log.trace.calls|], call);
    Log(Extend(log.trace, call, o.table, o.admitted), log.at + [m])
  }

  lemma AllMadeLater(setup: Setup, r: Run, id: nat, n: nat, calls: seq<Call>, at: seq<nat>)
    requires n < |r.events| && |r.engines| == |r.events| + 1 && AllMade(setup, r, id, n, calls, at)
    ensures AllMade(setup, r, id, n + 1, calls, at)
    ensures forall call | Made(setup, r, id, n, call) :: AllMade(setup, r, id, n + 1, calls + [call], at + [n])
  {
  }

  lemma LogStep(setup: Setup, r: Run, id: nat, m: nat, log: Log) returns (next: Log)
    requires IsRun(setup, r) && m < |r.events| && Explains(setup, r, id, m, log)
    ensures Explains(setup, r, id, m + 1, next)
  {
    assert Happens(setup, r, m);
    var e, v := r.engines[m], r.events[m];
    PolicyStep(setup, e, v, id);
    AllMadeLater(setup, r, id, m, log.trace.calls, log.at);
    var call := CallOf(setup, e, v, id);
    if call.None? {
      next := log;
    } else {
      var config := ConfigOf(setup, e, id);
      CallsAreBare(setup, e, v, id);
      ExtendIsTrace(config, log.trace, call.value, Perform(config, log.trace.tables[|log.trace.calls|], call.value));
      assert Made(setup, r, id, m, call.value);
      next := Extended(config, log, call.value, m);
    }
  }

  /** In every reachable engine the policy of every session, live or closed, is the last table of a legal run of that
      peer's policy, whose calls were made by events of the run, in order. */
  lemma {:induction false} SessionLog(setup: Setup, r: Run, n: nat, id: nat) returns (log: Log)
    requires IsRun(setup, r) && n <= |r.events| && id in r.engines[n].records
    ensures Explains(setup, r, id, n, log)
  {
    var m: nat := n - 1;
    assert Happens(setup, r, m);
    if id in r.engines[m].records {
      log := SessionLog(setup, r, m, id);
      log := LogStep(setup, r, id, m, log);
    } else {
      AttachStep(setup, r.engines[m], r.events[m], id);
      log := Log(Trace([], [EmptyTable], []), []);
    }
  }

  /** So every session's table is consistent, in every reachable engine. */
  lemma SessionPoliciesAreConsistent(setup: Setup, r: Run, n: nat, id: nat)
    requires IsRun(setup, r) && n <= |r.events| && id in r.engines[n].records
    ensures Consistent(r.engines[n].records[id].policy)
  {
    var log := SessionLog(setup, r, n, id);
    ReachableConsistent(ConfigOf(setup, r.engines[n], id), log.trace, |log.trace.calls|);
  }

  /** The TCP segment that a frame brings to its session's policy. */
  ghost predicate Brings(setup: Setup, r: Run, n: nat, s: Segment)
    requires n < |r.events| && |r.engines| == |r.events| + 1
  {
    && r.events[n].Frame? && r.events[n].session in r.engines[n].records
    && r.engines[n].records[r.events[n].session].peer in setup.policies
    && Inbound(ConfigOf(setup, r.engines[n], r.events[n].session), r.events[n].bytes, r.events[n].now).input == Tcp(s)
  }

  /** A write calls the policy, which admits. */
  lemma WriteIsCall(setup: Setup, r: Run, n: nat)
    requires IsRun(setup, r) && n < |r.events| && StartsWrite(r, n)
    ensures var e, id := r.engines[n], r.events[n].session;
            && id in e.records && e.records[id].peer in setup.policies
            && var call := Inbound(ConfigOf(setup, e, id), r.events[n].bytes, r.events[n].now);
               CallOf(setup, e, r.events[n], id) == Some(call)
                 && Perform(ConfigOf(setup, e, id), e.records[id].policy, call).admitted
  {
    assert Happens(setup, r, n);
  }

  /** Event `m` hands a SYN for the port pair to the session's peer: the local side asks for the connection. */
  ghost predicate AsksOutward(setup: Setup, r: Run, m: nat, id: nat, k: Key)
    requires m < |r.events| && |r.engines| == |r.events| + 1
  {
    && r.events[m].Outgoing? && Destination(setup, r.engines[m], r.events[m].packet) == Some(id)
    && Requests(ConfigOf(setup, r.engines[m], id),
                Outbound(ConfigOf(setup, r.engines[m], id), r.events[m].packet, r.events[m].at), k)
  }

  /** Default deny in the running engine: a TCP packet to a port not granted starts toward the TUN device only if an
      earlier packet from the TUN device was a SYN on the same port pair, for that same session, with outbound
      initiation on. */
  lemma UngrantedWriteNeedsOutboundSyn(setup: Setup, r: Run, n: nat, s: Segment) returns (m: nat)
    requires IsRun(setup, r) && n < |r.events| && StartsWrite(r, n) && Brings(setup, r, n, s)
    requires !Granted(ConfigOf(setup, r.engines[n], r.events[n].session), s.destinationPort)
    ensures m < n && AsksOutward(setup, r, m, r.events[n].session, SegmentKey(s, In))
    ensures ConfigOf(setup, r.engines[n], r.events[n].session).allowOutboundInitiation
  {
    var e, id, k := r.engines[n], r.events[n].session, SegmentKey(s, In);
    var config, call := ConfigOf(setup, e, id), Inbound(ConfigOf(setup, e, id), r.events[n].bytes, r.events[n].now);
    WriteIsCall(setup, r, n);
    var log := SessionLog(setup, r, n, id);
    var last := |log.trace.calls|;
    CallsAreBare(setup, e, r.events[n], id);
    ExtendIsTrace(config, log.trace, call, Perform(config, log.trace.tables[last], call));
    var longer := Extended(config, log, call, n).trace;
    UngrantedInboundNeedsOutboundFlow(config, longer, last, k);
    var i: nat :| i < last && OpenedAt(config, longer, k, i, last) && longer.calls[i].direction.Out?;
    m := log.at[i];
    assert Made(setup, r, id, m, log.trace.calls[i]);
    PeerIsFixed(setup, r, m, n, id);
  }

  /** A session keeps its peer. */
  lemma {:induction false} PeerIsFixed(setup: Setup, r: Run, a: nat, b: nat, id: nat)
    requires IsRun(setup, r) && a <= b <= |r.events|
    requires id in r.engines[a].records && r.engines[a].records[id].peer in setup.policies
    ensures id in r.engines[b].records && r.engines[b].records[id].peer == r.engines[a].records[id].peer
    decreases b
  {
    if a < b {
      var m: nat := b - 1;
      PeerIsFixed(setup, r, a, m, id);
      assert Happens(setup, r, m);
      PolicyStep(setup, r.engines[m], r.events[m], id);
    }
  }
}
