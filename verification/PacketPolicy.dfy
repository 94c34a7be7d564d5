/** The policy object: the flow table kept in place. */
module PacketPolicy {
  import opened Common
  import opened Packets
  import opened SerialTracker
  import opened FlowTable

  /** How far the refusing part of `admit` got with a segment. */
  datatype Stage = Refused | Reset | Answered | Proceed

  /** One tracked connection, updated in place. */
  class FlowRecord {
    const initiator: Direction
    const sequence: u32
    var replied: bool
    var established: bool
    var responseSequence: Option<u32>
    var finIn: Option<int>
    var finOut: Option<int>
    var ackIn: Option<int>
    var ackOut: Option<int>
    var closedAt: Option<int>
    var lastSeen: int

    constructor (initiator: Direction, sequence: u32, now: int)
      ensures Value() == Flow(initiator, sequence, false, false, None, Untouched, now)
    {
      this.initiator, this.sequence := initiator, sequence;
      replied, established, responseSequence := false, false, None;
      finIn, finOut, ackIn, ackOut, closedAt := None, None, None, None, None;
      lastSeen := now;
    }

    function Value(): Flow
      reads this
    {
      Flow(initiator, sequence, replied, established, responseSequence,
           Tracker(finIn, finOut, ackIn, ackOut, closedAt), lastSeen)
    }

    function Progress(): Tracker
      reads this
    {
      Tracker(finIn, finOut, ackIn, ackOut, closedAt)
    }

    method NoteAck(d: Direction, value: int)
      modifies this`ackIn, this`ackOut
      ensures ackIn == (if d.In? then NewAck(old(ackIn), Some(value)) else old(ackIn))
      ensures ackOut == (if d.Out? then NewAck(old(ackOut), Some(value)) else old(ackOut))
    {
      var previous := if d.In? then ackIn else ackOut;
      if previous.None? || Reaches(value, previous.value) {
        if d.In? { ackIn := Some(value); } else { ackOut := Some(value); }
      }
    }

    method NoteFin(d: Direction, end: int)
      modifies this`finIn, this`finOut
      ensures finIn == (if d.In? then NewFin(old(finIn), Some(end)) else old(finIn))
      ensures finOut == (if d.Out? then NewFin(old(finOut), Some(end)) else old(finOut))
    {
      if d.In? {
        if finIn.None? { finIn := Some(end); }
      } else {
        if finOut.None? { finOut := Some(end); }
      }
    }

    method NoteClosing(now: int) returns (closing: bool)
      modifies this`closedAt
      ensures closing <==> old(closedAt).None? && old(BothAcked(Progress()))
      ensures closedAt == if closing then Some(now) else old(closedAt)
    {
      closing := closedAt.None? && finIn.Some? && finOut.Some?
        && ackOut.Some? && Reaches(ackOut.value, finIn.value)
        && ackIn.Some? && Reaches(ackIn.value, finOut.value);
      if closing {
        closedAt := Some(now);
      }
    }

    /** What `admit` does to an established flow once a segment is acceptable; the result says whether it closed the
        flow. */
    method FeedTracker(s: Segment, d: Direction, now: int) returns (closing: bool)
      modifies this
      ensures Value() == old(Value()).(tracker := Track(old(Value()).tracker, EventOf(s, d, now)))
      ensures closing <==> old(closedAt).None? && closedAt.Some?
    {
      if s.ack {
        NoteAck(d, s.acknowledgement);
      }
      if s.fin {
        NoteFin(d, Wrap32(s.sequence + s.payload + 1));
      }
      closing := NoteClosing(now);
    }

    method Absorb(s: Segment, d: Direction, now: int) returns (closing: bool)
      requires !s.rst
      modifies this
      ensures Settle(old(Value()), s, d, now) == Keep(Value())
      ensures closing <==> IsClosed(Value()) && !IsClosed(old(Value()))
    {
      lastSeen := now;
      closing := false;
      if established {
        closing := FeedTracker(s, d, now);
      }
    }

    /** The part of `admit` that may refuse the segment, or answer it at once. */
    method Handshake(s: Segment, d: Direction, now: int) returns (stage: Stage)
      modifies this
      ensures closedAt == old(closedAt)
      ensures match stage
              case Refused => Value() == old(Value()) && Advance(old(Value()), s, d, now) == Refuse
              case Reset => Advance(old(Value()), s, d, now) == Release
              case Answered => Advance(old(Value()), s, d, now) == Keep(Value())
              case Proceed => Advance(old(Value()), s, d, now) == Settle(Value(), s, d, now)
    {
      var next := Wrap32(sequence + 1);
      if !replied {
        if d == initiator {
          if !s.syn || s.ack || s.sequence != sequence { return Refused; }
        } else if s.rst && s.ack && s.acknowledgement == next {
          return Reset;
        } else {
          if !s.syn || !s.ack || s.acknowledgement != next { return Refused; }
          replied := true;
          responseSequence := Some(s.sequence);
        }
      } else if !established {
        if d == initiator {
          if s.syn && !s.ack && s.sequence == sequence {
            lastSeen := now;
            return Answered;
          }
          if s.rst && !s.syn && s.sequence == next && (!s.ack || s.acknowledgement == After(responseSequence)) {
            return Reset;
          }
          if !s.ack || s.syn || s.sequence != next || s.acknowledgement != After(responseSequence) { return Refused; }
          established := true;
        } else {
          if !s.syn || !s.ack || Some(s.sequence) != responseSequence || s.acknowledgement != next { return Refused; }
        }
      } else if s.syn && !s.ack && d != initiator {
        return Refused;
      }
      return Proceed;
    }
  }

  /** The policy of one session: its connections by port pair, each a record of its own, and the closed ones in closing
      order. `trace` remembers every call since creation; `Valid()` says that replaying these calls on values, from the
      empty table, gives exactly the tables and answers this object went through. */
  class PacketPolicy {
    const config: Config
    var flows: map<Key, FlowRecord>
    var closed: seq<Key>
    var nextSweep: int
    ghost var trace: Trace

    /** No record serves two port pairs. */
    ghost predicate Separate()
      reads this
    {
      forall k, l | k in flows && l in flows && flows[k] == flows[l] :: k == l
    }

    ghost function View(): Table
      reads this, flows.Values
    {
      Table(map k | k in flows :: flows[k].Value(), closed, nextSweep)
    }

    ghost predicate Valid()
      reads this, flows.Values
    {
      Separate() && IsTrace(config, trace) && trace.tables[|trace.calls|] == View()
    }

    constructor (localAddress: string, peerAddress: string, ports: Grant, allowOutboundInitiation: bool)
      ensures Valid() && fresh(flows.Values)
      ensures config == Config(localAddress, peerAddress, ports, allowOutboundInitiation)
      ensures trace == Trace([], [EmptyTable], [])
    {
      config := Config(localAddress, peerAddress, ports, allowOutboundInitiation);
      flows, closed, nextSweep := map[], [], 0;
      trace := Trace([], [EmptyTable], []);
    }

    /** The call just made joins the history. */
    ghost method Record(call: Call, before: Table, admitted: bool)
      requires Separate() && IsTrace(config, trace) && trace.tables[|trace.calls|] == before
      requires Outcome(View(), admitted) == Perform(config, before, call) && (call.Packet? ==> BareSyn(call.input))
      modifies this`trace
      ensures Valid() && trace == Extend(old(trace), call, View(), admitted)
    {
      ExtendIsTrace(config, trace, call, Outcome(View(), admitted));
      trace := Extend(trace, call, View(), admitted);
    }

    /** `clear`: no flow is left, whatever its state. */
    method Clear()
      requires Valid()
      modifies this
      ensures Valid()
      ensures View() == Perform(config, old(View()), FlowTable.Clear).table
      ensures trace == Extend(old(trace), FlowTable.Clear, View(), true)
    {
      ghost var before := View();
      flows, closed := map[], [];
      Record(FlowTable.Clear, before, true);
    }

    method Remove(key: Key)
      requires Separate()
      modifies this`flows, this`closed
      ensures Separate() && flows.Values <= old(flows.Values)
      ensures flows == old(flows) - {key} && closed == Without(old(closed), {key})
      ensures View() == FlowTable.Remove(old(View()), key)
    {
      flows := flows - {key};
      closed := Without(closed, {key});
    }

    /** Without the doomed keys, the table is the table without the doomed flows. */
    lemma ViewWithout(all: map<Key, FlowRecord>, before: Table, doomed: set<Key>)
      requires before.flows.Keys == all.Keys && forall k | k in all :: all[k].Value() == before.flows[k]
      requires flows == all - doomed && closed == Without(before.closed, doomed) && nextSweep == before.nextSweep
      ensures View() == RemoveAll(before, doomed)
    {
    }

    /** The loop of the sweep: every expired flow goes, from the map and from the closed ones. */
    method RemoveExpired(now: int) returns (ghost doomed: set<Key>)
      requires Separate()
      modifies this`flows, this`closed
      ensures Separate() && flows.Values <= old(flows.Values)
      ensures flows == old(flows) - doomed && closed == Without(old(closed), doomed)
      ensures forall k :: k in doomed <==> k in old(flows) && Expired(old(flows)[k].Value(), now)
    {
      doomed := {};
      var todo := flows.Keys;
      WithoutNothing(closed);
      while todo != {}
        invariant Separate() && flows.Values <= old(flows.Values)
        invariant flows == old(flows) - doomed && closed == Without(old(closed), doomed)
        invariant todo <= flows.Keys
        invariant forall k :: k in doomed <==> k in old(flows) && k !in todo && Expired(old(flows)[k].Value(), now)
      {
        var key :| key in todo;
        todo := todo - {key};
        if Expired(flows[key].Value(), now) {
          WithoutTwice(old(closed), doomed, {key});
          assert old(flows) - (doomed + {key}) == old(flows) - doomed - {key};
          Remove(key);
          doomed := doomed + {key};
        }
      }
    }

    method SweepExpired(now: int)
      requires Separate()
      modifies this`flows, this`closed, this`nextSweep
      ensures Separate() && flows.Values <= old(flows.Values)
      ensures View() == Sweep(old(View()), now)
    {
      if now < nextSweep {
        return;
      }
      ghost var all, before := flows, View();
      ghost var doomed := RemoveExpired(now);
      ViewWithout(all, before, doomed);
      assert doomed == ExpiredKeys(before, now);
      nextSweep := now + SWEEP_INTERVAL_MS;
    }

    lemma ViewAfterUpdate(before: Table, key: Key)
      requires Separate() && key in flows
      requires before.flows.Keys == flows.Keys
      requires forall k | k in flows && k != key :: flows[k].Value() == before.flows[k]
      ensures View()
              == before.(flows := before.flows[key := flows[key].Value()], closed := closed, nextSweep := nextSweep)
    {
    }

    /** `admitIcmp`, from the flow lookup on. */
    method AdmitIcmp(key: Key, now: int) returns (admitted: bool)
      requires Separate()
      modifies flows.Values
      ensures flows == old(flows) && Separate()
      ensures var before := old(View());
              && admitted == (key in before.flows)
              && View() == if admitted then before.(flows := before.flows[key := before.flows[key].(lastSeen := now)])
                 else before
    {
      if key !in flows {
        return false;
      }
      ghost var before := View();
      flows[key].lastSeen := now;
      ViewAfterUpdate(before, key);
      return true;
    }

    method Insert(key: Key, s: Segment, d: Direction, now: int)
      requires Separate() && key !in flows
      modifies this`flows
      ensures Separate() && fresh(flows.Values - old(flows.Values))
      ensures View() == old(View()).(flows := old(View()).flows[key := NewFlow(s, d, now)])
    {
      ghost var before := View();
      var record := new FlowRecord(d, s.sequence, now);
      flows := flows[key := record];
      assert View().flows == before.flows[key := NewFlow(s, d, now)];
    }

    /** Capacity: the oldest closed flow makes room; the result says whether there is any. */
    method MakeRoom() returns (room: bool)
      requires Separate()
      modifies this`flows, this`closed
      ensures Separate() && flows.Values <= old(flows.Values) && flows.Keys <= old(flows.Keys)
      ensures room <==> |old(View()).flows| < MAX_FLOWS || old(closed) != []
      ensures View() == if room then Room(old(View())) else old(View())
    {
      MapSize(flows, View().flows);
      room := |flows| < MAX_FLOWS || closed != [];
      if |flows| >= MAX_FLOWS && closed != [] {
        Remove(closed[0]);
      }
    }

    /** The opening branch of `admit`. */
    method OpenFlow(key: Key, s: Segment, d: Direction, now: int) returns (admitted: bool)
      requires Separate() && key !in flows
      modifies this`flows, this`closed
      ensures Separate() && fresh(flows.Values - old(flows.Values))
      ensures Outcome(View(), admitted) == Open(config, old(View()), key, s, d, now)
    {
      if !s.syn || s.ack || s.rst { return false; }
      if d.Out? && !config.allowOutboundInitiation { return false; }
      if d.In? && !Granted(config, s.destinationPort) { return false; }
      admitted := MakeRoom();
      if admitted {
        Insert(key, s, d, now);
      }
    }

    /** The closing lines of `admit`, for an acceptable segment. */
    method SettleFlow(key: Key, s: Segment, d: Direction, now: int)
      requires Separate() && key in flows
      modifies this`flows, this`closed, flows.Values
      ensures Separate() && flows.Values <= old(flows.Values)
      ensures key in old(View()).flows
      ensures Outcome(View(), true) == Apply(old(View()), key, Settle(old(View()).flows[key], s, d, now))
    {
      ghost var before := View();
      var flow := flows[key];
      if s.rst {
        Remove(key);
        return;
      }
      var closing := flow.Absorb(s, d, now);
      if closing {
        closed := AddLast(closed, key);
      }
      ViewAfterUpdate(before, key);
    }

    /** The branch of `admit` for a segment of a tracked flow. */
    method AdvanceFlow(key: Key, s: Segment, d: Direction, now: int) returns (admitted: bool)
      requires Separate() && key in flows
      modifies this`flows, this`closed, flows.Values
      ensures Separate() && flows.Values <= old(flows.Values)
      ensures key in old(View()).flows
      ensures Outcome(View(), admitted) == Apply(old(View()), key, Advance(old(View()).flows[key], s, d, now))
    {
      ghost var before := View();
      var stage := flows[key].Handshake(s, d, now);
      ViewAfterUpdate(before, key);
      ghost var between := View();
      if stage.Reset? {
        Remove(key);
        RemoveForgets(before, between, key);
      } else if stage.Proceed? {
        SettleFlow(key, s, d, now);
        ApplyForgets(before, between, key, Settle(between.flows[key], s, d, now));
      }
      admitted := !stage.Refused?;
    }

    /** A fresh SYN forgets a closed flow on its port pair, unless its port is not granted. */
    method ForgetClosed(key: Key, s: Segment, d: Direction) returns (refused: bool)
      requires Separate()
      modifies this`flows, this`closed
      ensures Separate() && flows.Values <= old(flows.Values)
      ensures refused <==>
                key in old(View()).flows && IsOpening(old(View()), key, s) && d.In?
                  && !Granted(config, s.destinationPort)
      ensures View() == if key in old(View()).flows && IsOpening(old(View()), key, s) && !refused
                        then FlowTable.Remove(old(View()), key) else old(View())
    {
      if key !in flows || flows[key].closedAt.None? || !s.syn || s.ack { return false; }
      if d.In? && !Granted(config, s.destinationPort) { return true; }
      Remove(key);
      return false;
    }

    /** `admit`, from the flow lookup on. */
    method AdmitTcp(s: Segment, d: Direction, now: int) returns (admitted: bool)
      requires Separate()
      modifies this`flows, this`closed, flows.Values
      ensures Separate() && fresh(flows.Values - old(flows.Values))
      ensures Outcome(View(), admitted) == AdmitSegment(config, old(View()), SegmentKey(s, d), s, d, now)
    {
      var key := SegmentKey(s, d);
      var refused := ForgetClosed(key, s, d);
      if refused { return false; }
      assert key in View().flows <==> key in flows;
      if key !in flows {
        admitted := OpenFlow(key, s, d, now);
      } else {
        admitted := AdvanceFlow(key, s, d, now);
      }
    }

    /** The classified form of a packet, as the table's specification takes it. */
    function Read(bytes: seq<byte>, d: Direction, now: int): Call {
      Packet(Classify(bytes, d, config.localAddress, config.peerAddress), d, now)
    }

    /** `admit` */
    method Admit(bytes: seq<byte>, d: Direction, now: int) returns (admitted: bool)
      requires Valid()
      modifies this, flows.Values
      ensures Valid() && fresh(flows.Values - old(flows.Values))
      ensures Outcome(View(), admitted) == Perform(config, old(View()), Read(bytes, d, now))
      ensures trace == Extend(old(trace), Read(bytes, d, now), View(), admitted)
    {
      ghost var before := View();
      var call := Read(bytes, d, now);
      SynIsBare(bytes, d, config.localAddress, config.peerAddress);
      admitted := Decide(call.input, d, now);
      Record(call, before, admitted);
    }

    method Decide(input: Input, d: Direction, now: int) returns (admitted: bool)
      requires Separate()
      modifies this`flows, this`closed, this`nextSweep, flows.Values
      ensures Separate() && fresh(flows.Values - old(flows.Values))
      ensures Outcome(View(), admitted) == Perform(config, old(View()), Packet(input, d, now))
    {
      if input.Stray? { return false; }
      SweepExpired(now);
      match input
      case Tcp(s) => admitted := AdmitTcp(s, d, now);
      case Quoting(key) => admitted := AdmitIcmp(key, now);
      case _ => admitted := false;
    }
  }

  lemma MapSize<K, V, W>(a: map<K, V>, b: map<K, W>)
    requires a.Keys == b.Keys
    ensures |a| == |b|
  {
    assert |a| == |a.Keys| && |b| == |b.Keys|;
  }
}
