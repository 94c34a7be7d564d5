/** The connection table as a value, and what one packet does to it. */
module FlowTable {
  import opened Common
  import opened Packets
  import opened SerialTracker

  const MAX_FLOWS := 4096
  const HANDSHAKE_IDLE_MS := 5 * 60_000
  const CLOSED_GRACE_MS := 60_000
  const SWEEP_INTERVAL_MS := 1_000

  /** `tracker` gathers `finIn`, `finOut`, `ackIn`, `ackOut` and `closedAt`. */
  datatype Flow = Flow(initiator: Direction, sequence: u32, replied: bool, established: bool,
                       responseSequence: Option<u32>, tracker: Tracker, lastSeen: int)

  datatype Grant = All | Ports(ports: set<int>)

  datatype Config = Config(localAddress: string, peerAddress: string, ports: Grant, allowOutboundInitiation: bool)

  /** `closed` is the insertion-ordered set of closed flows. */
  datatype Table = Table(flows: map<Key, Flow>, closed: seq<Key>, nextSweep: int)

  datatype Outcome = Outcome(table: Table, admitted: bool)

  predicate Granted(config: Config, port: int) {
    config.ports.All? || port in config.ports.ports
  }

  predicate IsClosed(f: Flow) {
    f.tracker.closedAt.Some?
  }

  predicate Expired(f: Flow, now: int) {
    || (IsClosed(f) && now - f.tracker.closedAt.value >= CLOSED_GRACE_MS)
    || (!f.established && now - f.lastSeen >= HANDSHAKE_IDLE_MS)
  }

  function Without(s: seq<Key>, doomed: set<Key>): seq<Key> {
    if s == [] then []
    else if s[0] in doomed then Without(s[1..], doomed)
    else [s[0]] + Without(s[1..], doomed)
  }

  /** `Set.add` */
  function AddLast(s: seq<Key>, key: Key): seq<Key> {
    if key in s then s else s + [key]
  }

  function RemoveAll(t: Table, doomed: set<Key>): Table {
    t.(flows := t.flows - doomed, closed := Without(t.closed, doomed))
  }

  function Remove(t: Table, key: Key): Table {
    RemoveAll(t, {key})
  }

  function ExpiredKeys(t: Table, now: int): set<Key> {
    set k | k in t.flows && Expired(t.flows[k], now)
  }

  /** The lazy timed sweep. */
  function Sweep(t: Table, now: int): Table {
    if now >= t.nextSweep then RemoveAll(t, ExpiredKeys(t, now)).(nextSweep := now + SWEEP_INTERVAL_MS) else t
  }

  /** A SYN that asks for a new connection. */
  predicate IsRequest(s: Segment) {
    s.syn && !s.ack && !s.rst
  }

  function NewFlow(s: Segment, d: Direction, now: int): Flow {
    Flow(d, s.sequence, false, false, None, Untouched, now)
  }

  /** The table with room for one more flow, if there is a closed flow to give up. */
  function Room(t: Table): Table {
    if |t.flows| >= MAX_FLOWS && t.closed != [] then Remove(t, t.closed[0]) else t
  }

  /** A segment on a port pair without a flow. */
  function Open(config: Config, t: Table, key: Key, s: Segment, d: Direction, now: int): Outcome {
    if !IsRequest(s) then Outcome(t, false)
    else if d.Out? && !config.allowOutboundInitiation then Outcome(t, false)
    else if d.In? && !Granted(config, s.destinationPort) then Outcome(t, false)
    else if |t.flows| >= MAX_FLOWS && t.closed == [] then Outcome(t, false)
    else
      var room := Room(t);
      Outcome(room.(flows := room.flows[key := NewFlow(s, d, now)]), true)
  }

  datatype Verdict = Refuse | Release | Keep(flow: Flow)

  /** The number after `x`; an absent value counts as `NaN >>> 0`. */
  function After(x: Option<u32>): u32 {
    if x.Some? then Wrap32(x.value + 1) else 0
  }

  function EventOf(s: Segment, d: Direction, now: int): Event {
    Event(d, if s.ack then Some(s.acknowledgement) else None,
          if s.fin then Some(Wrap32(s.sequence + s.payload + 1)) else None, now)
  }

  /** An acceptable segment: a reset ends the flow, anything else refreshes it and feeds the tracker once
      established. */
  function Settle(f: Flow, s: Segment, d: Direction, now: int): Verdict {
    if s.rst then Release
    else Keep(f.(lastSeen := now, tracker := if f.established then Track(f.tracker, EventOf(s, d, now)) else f.tracker))
  }

  /** A segment on the port pair of a tracked flow. */
  function Advance(f: Flow, s: Segment, d: Direction, now: int): Verdict {
    var next := Wrap32(f.sequence + 1);
    if !f.replied then
      if d == f.initiator then
        if !s.syn || s.ack || s.sequence != f.sequence then Refuse else Settle(f, s, d, now)
      else if s.rst && s.ack && s.acknowledgement == next then Release
      else if !s.syn || !s.ack || s.acknowledgement != next then Refuse
      else Settle(f.(replied := true, responseSequence := Some(s.sequence)), s, d, now)
    else if !f.established then
      if d == f.initiator then
        if s.syn && !s.ack && s.sequence == f.sequence then Keep(f.(lastSeen := now))
        else if s.rst && !s.syn && s.sequence == next && (!s.ack || s.acknowledgement == After(f.responseSequence))
             then Release
        else if !s.ack || s.syn || s.sequence != next || s.acknowledgement != After(f.responseSequence) then Refuse
        else Settle(f.(established := true), s, d, now)
      else if !s.syn || !s.ack || Some(s.sequence) != f.responseSequence || s.acknowledgement != next then Refuse
      else Settle(f, s, d, now)
    else if s.syn && !s.ack && d != f.initiator then Refuse
    else Settle(f, s, d, now)
  }

  /** The flow replaced by its next value; if that closes it, it joins the closed ones. */
  function Store(t: Table, key: Key, f: Flow): Table
    requires key in t.flows
  {
    t.(flows := t.flows[key := f],
       closed := if IsClosed(f) && !IsClosed(t.flows[key]) then AddLast(t.closed, key) else t.closed)
  }

  function Apply(t: Table, key: Key, v: Verdict): Outcome
    requires key in t.flows
  {
    match v
    case Refuse => Outcome(t, false)
    case Release => Outcome(Remove(t, key), true)
    case Keep(f) => Outcome(Store(t, key, f), true)
  }

  /** No flow on this port pair, or a closed one that a fresh SYN may replace. */
  predicate IsOpening(t: Table, key: Key, s: Segment) {
    key !in t.flows || (IsClosed(t.flows[key]) && s.syn && !s.ack)
  }

  function AdmitSegment(config: Config, t: Table, key: Key, s: Segment, d: Direction, now: int): Outcome {
    if key !in t.flows then Open(config, t, key, s, d, now)
    else if IsOpening(t, key, s) then
      if d.In? && !Granted(config, s.destinationPort) then Outcome(t, false)
      else Open(config, Remove(t, key), key, s, d, now)
    else Apply(t, key, Advance(t.flows[key], s, d, now))
  }

  /** `admit` */
  function Admit(config: Config, t: Table, input: Input, d: Direction, now: int): Outcome {
    if input.Stray? then Outcome(t, false)
    else
      var swept := Sweep(t, now);
      match input
      case Tcp(s) => AdmitSegment(config, swept, SegmentKey(s, d), s, d, now)
      case Quoting(key) =>
        if key in swept.flows then Outcome(Store(swept, key, swept.flows[key].(lastSeen := now)), true)
        else Outcome(swept, false)
      case _ => Outcome(swept, false)
  }

  /** One call on a policy, its packet already read by `Classify`. */
  datatype Call = Packet(input: Input, direction: Direction, now: int) | Clear

  function Perform(config: Config, t: Table, c: Call): Outcome {
    match c
    case Packet(input, d, now) => Admit(config, t, input, d, now)
    case Clear => Outcome(t.(flows := map[], closed := []), true)
  }

  const EmptyTable := Table(map[], [], 0)

  /** The calls on one policy since its creation, the table before and after each, and the answers. */
  datatype Trace = Trace(calls: seq<Call>, tables: seq<Table>, answers: seq<bool>)

  ghost predicate Step(config: Config, tr: Trace, i: nat)
    requires i < |tr.calls| && |tr.tables| == |tr.calls| + 1 && |tr.answers| == |tr.calls|
  {
    && Outcome(tr.tables[i + 1], tr.answers[i]) == Perform(config, tr.tables[i], tr.calls[i])
    && (tr.calls[i].Packet? ==> BareSyn(tr.calls[i].input))
  }

  ghost predicate IsTrace(config: Config, tr: Trace) {
    && |tr.tables| == |tr.calls| + 1 && |tr.answers| == |tr.calls|
    && tr.tables[0] == EmptyTable
    && forall i | 0 <= i < |tr.calls| :: Step(config, tr, i)
  }

  function Extend(tr: Trace, c: Call, t: Table, answer: bool): Trace {
    Trace(tr.calls + [c], tr.tables + [t], tr.answers + [answer])
  }

  lemma ExtendIsTrace(config: Config, tr: Trace, c: Call, o: Outcome)
    requires IsTrace(config, tr) && o == Perform(config, tr.tables[|tr.calls|], c)
    requires c.Packet? ==> BareSyn(c.input)
    ensures IsTrace(config, Extend(tr, c, o.table, o.admitted))
  {
    var x := Extend(tr, c, o.table, o.admitted);
    forall i | 0 <= i < |x.calls| ensures Step(config, x, i) {
      assert i < |tr.calls| ==> Step(config, tr, i);
    }
  }

  lemma {:induction false} WithoutElements(s: seq<Key>, doomed: set<Key>)
    ensures forall k :: k in Without(s, doomed) <==> k in s && k !in doomed
    ensures |Without(s, doomed)| <= |s|
  {
    if s != [] {
      WithoutElements(s[1..], doomed);
      assert s == [s[0]] + s[1..];
    }
  }

  lemma {:induction false} WithoutTwice(s: seq<Key>, a: set<Key>, b: set<Key>)
    ensures Without(Without(s, a), b) == Without(s, a + b)
  {
    if s != [] {
      WithoutTwice(s[1..], a, b);
    }
  }

  lemma {:induction false} WithoutNothing(s: seq<Key>)
    ensures Without(s, {}) == s
  {
    if s != [] {
      WithoutNothing(s[1..]);
    }
  }

  /** Removing or replacing a flow does not depend on what the flow was, as long as it stays open or stays closed. */
  lemma RemoveForgets(t: Table, u: Table, key: Key)
    requires key in t.flows && key in u.flows && u == t.(flows := t.flows[key := u.flows[key]])
    ensures Remove(u, key) == Remove(t, key)
  {
    assert u.flows - {key} == t.flows - {key};
  }

  lemma ApplyForgets(t: Table, u: Table, key: Key, v: Verdict)
    requires key in t.flows && key in u.flows && u == t.(flows := t.flows[key := u.flows[key]])
    requires IsClosed(u.flows[key]) <==> IsClosed(t.flows[key])
    requires !v.Refuse?
    ensures Apply(u, key, v) == Apply(t, key, v)
  {
    RemoveForgets(t, u, key);
    assert v.Keep? ==> u.flows[key := v.flow] == t.flows[key := v.flow];
  }
}
