/** What every call keeps: agreement of the table with its closed index, retention of flows, and expiry bounds. */
module PolicyInvariants {
  import opened Common
  import opened Packets
  import opened SerialTracker
  import opened FlowTable
  import opened PacketPolicy

  ghost predicate NoDuplicates(s: seq<Key>) {
    forall i, j | 0 <= i < j < |s| :: s[i] != s[j]
  }

  ghost predicate FlowConsistent(f: Flow) {
    && (f.established ==> f.replied)
    && (f.replied ==> f.responseSequence.Some?)
    && (!f.established ==> f.tracker == Untouched)
  }

  ghost predicate Consistent(t: Table) {
    && |t.flows| <= 4096
    && NoDuplicates(t.closed)
    && (forall k :: k in t.closed <==> k in t.flows && IsClosed(t.flows[k]))
    && (forall k | k in t.flows :: FlowConsistent(t.flows[k]))
  }

  // ---- The closed index is a filtered, ordered set ----

  lemma {:induction false} WithoutKeepsPairs(s: seq<Key>, doomed: set<Key>, r: (Key, Key) -> bool)
    requires forall i, j | 0 <= i < j < |s| :: r(s[i], s[j])
    ensures forall i, j | 0 <= i < j < |Without(s, doomed)| :: r(Without(s, doomed)[i], Without(s, doomed)[j])
  {
    if s != [] {
      var rest := Without(s[1..], doomed);
      WithoutKeepsPairs(s[1..], doomed, r);
      forall j | 0 <= j < |rest| ensures r(s[0], rest[j]) {
        WithoutElements(s[1..], doomed);
        assert rest[j] in s[1..];
      }
    }
  }

  lemma WithoutNoDuplicates(s: seq<Key>, doomed: set<Key>)
    requires NoDuplicates(s)
    ensures NoDuplicates(Without(s, doomed))
  {
    WithoutKeepsPairs(s, doomed, (a, b) => a != b);
  }

  lemma RemoveAllConsistent(t: Table, doomed: set<Key>)
    requires Consistent(t)
    ensures Consistent(RemoveAll(t, doomed))
    ensures forall k | k in doomed && k in t.flows :: |RemoveAll(t, doomed).flows| < |t.flows|
  {
    WithoutElements(t.closed, doomed);
    WithoutNoDuplicates(t.closed, doomed);
    SubsetCardinality((t.flows - doomed).Keys, t.flows.Keys);
  }

  lemma SweepConsistent(t: Table, now: int)
    requires Consistent(t)
    ensures Consistent(Sweep(t, now))
  {
    RemoveAllConsistent(t, ExpiredKeys(t, now));
  }

  lemma OpenConsistent(config: Config, t: Table, key: Key, s: Segment, d: Direction, now: int)
    requires Consistent(t) && key !in t.flows
    ensures Consistent(Open(config, t, key, s, d, now).table)
  {
    if |t.flows| >= MAX_FLOWS && t.closed != [] {
      assert t.closed[0] in t.closed;
      RemoveAllConsistent(t, {t.closed[0]});
    }
  }

  lemma AdvanceConsistent(f: Flow, s: Segment, d: Direction, now: int)
    requires FlowConsistent(f)
    ensures Advance(f, s, d, now).Keep? ==>
              var g := Advance(f, s, d, now).flow;
              && FlowConsistent(g) && g.lastSeen == now && g.initiator == f.initiator && g.sequence == f.sequence
              && (IsClosed(f) ==> g.tracker.closedAt == f.tracker.closedAt)
              && (IsClosed(g) && !IsClosed(f) ==> g.tracker.closedAt == Some(now))
              && (f.replied ==> g.replied && g.responseSequence == f.responseSequence)
              && (f.established ==> g.established)
  {
  }

  lemma StoreConsistent(t: Table, key: Key, f: Flow)
    requires Consistent(t) && key in t.flows && FlowConsistent(f) && (IsClosed(t.flows[key]) ==> IsClosed(f))
    ensures Consistent(Store(t, key, f))
  {
    assert t.flows[key := f].Keys == t.flows.Keys;
    assert |t.flows[key := f]| == |t.flows[key := f].Keys| == |t.flows.Keys| == |t.flows|;
  }

  lemma ApplyConsistent(t: Table, key: Key, s: Segment, d: Direction, now: int)
    requires Consistent(t) && key in t.flows
    ensures Consistent(Apply(t, key, Advance(t.flows[key], s, d, now)).table)
  {
    var v := Advance(t.flows[key], s, d, now);
    AdvanceConsistent(t.flows[key], s, d, now);
    match v
    case Refuse =>
    case Release => RemoveAllConsistent(t, {key});
    case Keep(f) => StoreConsistent(t, key, f);
  }

  lemma SegmentConsistent(config: Config, t: Table, key: Key, s: Segment, d: Direction, now: int)
    requires Consistent(t)
    ensures Consistent(AdmitSegment(config, t, key, s, d, now).table)
  {
    if key !in t.flows {
      OpenConsistent(config, t, key, s, d, now);
    } else if IsOpening(t, key, s) {
      RemoveAllConsistent(t, {key});
      OpenConsistent(config, Remove(t, key), key, s, d, now);
    } else {
      ApplyConsistent(t, key, s, d, now);
    }
  }

  lemma PerformConsistent(config: Config, t: Table, c: Call)
    requires Consistent(t)
    ensures Consistent(Perform(config, t, c).table)
  {
    if c.Packet? {
      var swept := Sweep(t, c.now);
      SweepConsistent(t, c.now);
      match c.input
      case Tcp(s) => SegmentConsistent(config, swept, SegmentKey(s, c.direction), s, c.direction, c.now);
      case Quoting(key) =>
        if key in swept.flows {
          StoreConsistent(swept, key, swept.flows[key].(lastSeen := c.now));
        }
      case _ =>
    }
  }

  /** In every reachable state table and closed index agree, the table is bounded, and the handshake flags are
      ordered. */
  lemma {:induction false} ReachableConsistent(config: Config, tr: Trace, n: nat)
    requires IsTrace(config, tr) && n < |tr.tables|
    ensures Consistent(tr.tables[n])
  {
    if n > 0 {
      ReachableConsistent(config, tr, n - 1);
      assert Step(config, tr, n - 1);
      PerformConsistent(config, tr.tables[n - 1], tr.calls[n - 1]);
    }
  }

  /** So every policy object is consistent between two calls, whatever calls it has seen. */
  lemma PolicyObjectIsConsistent(p: PacketPolicy)
    requires p.Valid()
    ensures Consistent(p.View())
  {
    ReachableConsistent(p.config, p.trace, |p.trace.calls|);
  }

  // ---- Capacity ----

  /** The flows that capacity never evicts. */
  function OpenFlows(t: Table): set<Key> {
    set k | k in t.flows && !IsClosed(t.flows[k])
  }

  /** A request on a free or closed port pair that initiation and grants allow. */
  predicate OtherwiseAdmissible(config: Config, t: Table, key: Key, s: Segment, d: Direction) {
    && IsRequest(s) && IsOpening(t, key, s)
    && (d.Out? ==> config.allowOutboundInitiation)
    && (d.In? ==> Granted(config, s.destinationPort))
  }

  lemma OpenFlowsFillTable(t: Table)
    requires Consistent(t)
    ensures |OpenFlows(t)| <= |t.flows|
    ensures |OpenFlows(t)| == MAX_FLOWS <==> |t.flows| == MAX_FLOWS && t.closed == []
  {
    assert OpenFlows(t) <= t.flows.Keys;
    SubsetCardinality(OpenFlows(t), t.flows.Keys);
    if t.closed == [] {
      forall k | k in t.flows ensures k in OpenFlows(t) { assert k !in t.closed; }
      assert OpenFlows(t) == t.flows.Keys;
    } else {
      assert t.closed[0] in t.closed;
    }
  }

  /** An otherwise admissible request is refused exactly when 4096 flows that are not closed remain after the sweep. */
  lemma RefusedForCapacityExactly(config: Config, t: Table, key: Key, s: Segment, d: Direction, now: int)
    requires Consistent(t) && OtherwiseAdmissible(config, t, key, s, d)
    ensures AdmitSegment(config, t, key, s, d, now).admitted <==> |OpenFlows(t)| < 4096
  {
    OpenFlowsFillTable(t);
    if key in t.flows {
      RemoveAllConsistent(t, {key});
      assert key in t.closed;
    }
  }

  // ---- Framing and retention ----

  /** Whose tuple a packet is about, if any. */
  function OwnKey(c: Call): Option<Key>
    requires c.Packet?
  {
    match c.input
    case Tcp(s) => Some(SegmentKey(s, c.direction))
    case Quoting(key) => Some(key)
    case _ => None
  }

  /** The entry that makes room for a new flow, if one is needed and can be had. */
  function Evicted(t: Table): set<Key> {
    if |t.flows| >= MAX_FLOWS && t.closed != [] then {t.closed[0]} else {}
  }

  ghost predicate Unchanged(t: Table, u: Table, k: Key) {
    (k in t.flows <==> k in u.flows) && (k in t.flows ==> t.flows[k] == u.flows[k])
      && (k in t.closed <==> k in u.closed)
  }

  ghost predicate ChangesOnly(t: Table, u: Table, touched: set<Key>) {
    forall k | k !in touched :: Unchanged(t, u, k)
  }

  /** The packet's own closed tuple is dropped although the packet is refused. */
  predicate ForgetsClosed(config: Config, t: Table, s: Segment, d: Direction) {
    var key := SegmentKey(s, d);
    d.Out? && !config.allowOutboundInitiation && s.syn && !s.ack && key in t.flows && IsClosed(t.flows[key])
  }

  lemma RemoveChangesOnly(t: Table, doomed: set<Key>)
    ensures ChangesOnly(t, RemoveAll(t, doomed), doomed)
  {
    WithoutElements(t.closed, doomed);
  }

  lemma OpenChangesOnly(config: Config, t: Table, key: Key, s: Segment, d: Direction, now: int)
    requires Consistent(t) && key !in t.flows
    ensures ChangesOnly(t, Open(config, t, key, s, d, now).table, {key} + Evicted(t))
    ensures !Open(config, t, key, s, d, now).admitted ==> Open(config, t, key, s, d, now).table == t
  {
    RemoveChangesOnly(t, Evicted(t));
  }

  lemma ReopenChangesOnly(config: Config, t: Table, key: Key, s: Segment, d: Direction, now: int)
    requires Consistent(t) && key in t.flows
    ensures ChangesOnly(t, Open(config, Remove(t, key), key, s, d, now).table, {key})
  {
    RemoveAllConsistent(t, {key});
    var room := Remove(t, key);
    RemoveChangesOnly(t, {key});
    OpenChangesOnly(config, room, key, s, d, now);
    assert Evicted(room) == {};
    forall k | k !in {key} ensures Unchanged(t, Open(config, room, key, s, d, now).table, k) {
      assert Unchanged(t, room, k) && Unchanged(room, Open(config, room, key, s, d, now).table, k);
    }
  }

  lemma ApplyChangesOnly(t: Table, key: Key, v: Verdict)
    requires key in t.flows
    ensures ChangesOnly(t, Apply(t, key, v).table, {key})
  {
    RemoveChangesOnly(t, {key});
  }

  lemma SegmentChangesOnly(config: Config, t: Table, key: Key, s: Segment, d: Direction, now: int)
    requires Consistent(t)
    ensures ChangesOnly(t, AdmitSegment(config, t, key, s, d, now).table, {key} + Evicted(t))
  {
    if key !in t.flows {
      OpenChangesOnly(config, t, key, s, d, now);
    } else if IsOpening(t, key, s) {
      ReopenChangesOnly(config, t, key, s, d, now);
    } else {
      ApplyChangesOnly(t, key, Advance(t.flows[key], s, d, now));
    }
  }

  lemma SweepChangesOnly(t: Table, now: int)
    ensures ChangesOnly(t, Sweep(t, now), ExpiredKeys(t, now))
  {
    RemoveChangesOnly(t, ExpiredKeys(t, now));
  }

  lemma RefreshChangesOnly(t: Table, key: Key, now: int)
    requires key in t.flows
    ensures ChangesOnly(t, Store(t, key, t.flows[key].(lastSeen := now)), {key})
  {
  }

  lemma ChangesOnlyMore(t: Table, u: Table, a: set<Key>, b: set<Key>)
    requires ChangesOnly(t, u, a) && a <= b
    ensures ChangesOnly(t, u, b)
  {
  }

  lemma NothingChanges(t: Table, touched: set<Key>)
    ensures ChangesOnly(t, t, touched)
  {
  }

  /** A packet touches its own tuple, what the sweep removes, and at most the oldest closed entry, that one only to make
      room. */
  lemma PacketChangesOnly(config: Config, t: Table, c: Call)
    requires Consistent(t) && c.Packet?
    ensures ChangesOnly(t, Sweep(t, c.now), ExpiredKeys(t, c.now))
    ensures c.input.Stray? ==> Perform(config, t, c).table == t
    ensures !c.input.Stray? ==>
              ChangesOnly(Sweep(t, c.now), Perform(config, t, c).table,
                          Evicted(Sweep(t, c.now)) + if OwnKey(c).Some? then {OwnKey(c).value} else {})
  {
    SweepChangesOnly(t, c.now);
    if !c.input.Stray? {
      SweepConsistent(t, c.now);
      var swept, touched := Sweep(t, c.now),
        Evicted(Sweep(t, c.now)) + if OwnKey(c).Some? then {OwnKey(c).value} else {};
      NothingChanges(swept, touched);
      match c.input
      case Tcp(s) =>
        SegmentChangesOnly(config, swept, SegmentKey(s, c.direction), s, c.direction, c.now);
        ChangesOnlyMore(swept, Perform(config, t, c).table, {SegmentKey(s, c.direction)} + Evicted(swept), touched);
      case Quoting(key) =>
        if key in swept.flows {
          RefreshChangesOnly(swept, key, c.now);
          ChangesOnlyMore(swept, Perform(config, t, c).table, {key}, touched);
        }
      case _ =>
    }
  }

  /** A refused packet removes nothing beyond the sweep, except its own closed tuple when it is an outbound SYN that may
      not initiate. */
  lemma RefusalRemovesOnly(config: Config, t: Table, c: Call)
    requires Consistent(t) && c.Packet? && BareSyn(c.input) && !Perform(config, t, c).admitted
    ensures var swept, u, input := Sweep(t, c.now), Perform(config, t, c).table, c.input;
            || (input.Stray? && u == t)
            || (!input.Stray? && u == swept)
            || (input.Tcp? && ForgetsClosed(config, swept, input.segment, c.direction)
                && u == Remove(swept, SegmentKey(input.segment, c.direction)))
  {
    var swept := Sweep(t, c.now);
    SweepConsistent(t, c.now);
    if c.input.Tcp? {
      var s := c.input.segment;
      var key := SegmentKey(s, c.direction);
      if key in swept.flows && IsOpening(swept, key, s) {
        RemoveAllConsistent(swept, {key});
      }
    }
  }

  ghost predicate IsReset(c: Call, k: Key) {
    c.Packet? && c.input.Tcp? && SegmentKey(c.input.segment, c.direction) == k && c.input.segment.rst
  }

  /** An established flow that is not fully closed leaves the table only by a reset on its own tuple or by `clear`,
      whatever the clock says. */
  lemma EstablishedFlowIsRetained(config: Config, t: Table, c: Call, k: Key)
    requires Consistent(t)
    requires k in t.flows && t.flows[k].established && !IsClosed(t.flows[k])
    ensures k !in Perform(config, t, c).table.flows ==>
              c.Clear? || (IsReset(c, k) && Perform(config, t, c).admitted)
    ensures k in Perform(config, t, c).table.flows ==>
              var g := Perform(config, t, c).table.flows[k];
              g.established && g.initiator == t.flows[k].initiator && g.sequence == t.flows[k].sequence
  {
    if c.Packet? {
      var swept := Sweep(t, c.now);
      SweepConsistent(t, c.now);
      PacketChangesOnly(config, t, c);
      assert Unchanged(t, swept, k);
      if swept.closed != [] {
        assert swept.closed[0] in swept.closed;
      }
      if OwnKey(c) == Some(k) && c.input.Tcp? {
        AdvanceConsistent(swept.flows[k], c.input.segment, c.direction, c.now);
      } else if OwnKey(c) != Some(k) && !c.input.Stray? {
        assert Unchanged(swept, Perform(config, t, c).table, k);
      }
    }
  }

  // ---- Expiry under a clock that never runs backwards ----

  ghost predicate FlowTimely(f: Flow, nextSweep: int, clock: int) {
    && f.lastSeen <= clock
    && (IsClosed(f) ==> f.tracker.closedAt.value <= clock
                        && nextSweep - SWEEP_INTERVAL_MS - f.tracker.closedAt.value < CLOSED_GRACE_MS)
    && (!f.established ==> nextSweep - SWEEP_INTERVAL_MS - f.lastSeen < HANDSHAKE_IDLE_MS)
  }

  ghost predicate ClosedNoLater(t: Table, a: Key, b: Key) {
    a in t.flows && b in t.flows && IsClosed(t.flows[a]) && IsClosed(t.flows[b])
    && t.flows[a].tracker.closedAt.value <= t.flows[b].tracker.closedAt.value
  }

  /** `closed` is in closing order. */
  ghost predicate InClosingOrder(t: Table) {
    forall i, j | 0 <= i < j < |t.closed| :: ClosedNoLater(t, t.closed[i], t.closed[j])
  }

  ghost predicate Timely(t: Table, clock: int) {
    && Consistent(t)
    && 0 <= clock && t.nextSweep <= clock + SWEEP_INTERVAL_MS
    && (forall k | k in t.flows :: FlowTimely(t.flows[k], t.nextSweep, clock))
    && InClosingOrder(t)
  }

  lemma RemoveAllTimely(t: Table, doomed: set<Key>, clock: int)
    requires Timely(t, clock)
    ensures Timely(RemoveAll(t, doomed), clock)
  {
    RemoveAllConsistent(t, doomed);
    WithoutKeepsPairs(t.closed, doomed, (a, b) => ClosedNoLater(t, a, b));
    WithoutElements(t.closed, doomed);
    var u := RemoveAll(t, doomed);
    forall i, j | 0 <= i < j < |u.closed| ensures ClosedNoLater(u, u.closed[i], u.closed[j]) {
      assert u.closed[i] in u.closed && u.closed[j] in u.closed;
    }
  }

  lemma SweepTimely(t: Table, clock: int, now: int)
    requires Timely(t, clock) && clock <= now
    ensures Timely(Sweep(t, now), now) && now < Sweep(t, now).nextSweep
  {
    assert Timely(t, now);
    RemoveAllTimely(t, ExpiredKeys(t, now), now);
    if now >= t.nextSweep {
      var r := RemoveAll(t, ExpiredKeys(t, now));
      assert InClosingOrder(r.(nextSweep := now + SWEEP_INTERVAL_MS)) by {
        forall i, j | 0 <= i < j < |r.closed|
          ensures ClosedNoLater(r.(nextSweep := now + SWEEP_INTERVAL_MS), r.closed[i], r.closed[j]) {
          assert ClosedNoLater(r, r.closed[i], r.closed[j]);
        }
      }
      SweepConsistent(t, now);
    }
  }

  lemma OpenTimely(config: Config, t: Table, key: Key, s: Segment, d: Direction, now: int)
    requires Timely(t, now) && now < t.nextSweep && key !in t.flows
    ensures Timely(Open(config, t, key, s, d, now).table, now)
  {
    OpenConsistent(config, t, key, s, d, now);
    RemoveAllTimely(t, Evicted(t), now);
    var room, u := RemoveAll(t, Evicted(t)), Open(config, t, key, s, d, now).table;
    WithoutNothing(t.closed);
    if u != t {
      assert u.closed == room.closed;
      forall i, j | 0 <= i < j < |u.closed| ensures ClosedNoLater(u, u.closed[i], u.closed[j]) {
        assert ClosedNoLater(room, room.closed[i], room.closed[j]);
        WithoutElements(t.closed, Evicted(t));
        assert u.closed[i] in t.closed && u.closed[j] in t.closed;
      }
    }
  }

  lemma StoreTimely(t: Table, key: Key, f: Flow, now: int)
    requires Timely(t, now) && now < t.nextSweep && key in t.flows
    requires FlowConsistent(f) && FlowTimely(f, t.nextSweep, now)
    requires IsClosed(t.flows[key]) ==> f.tracker.closedAt == t.flows[key].tracker.closedAt
    requires IsClosed(f) && !IsClosed(t.flows[key]) ==> f.tracker.closedAt == Some(now)
    ensures Timely(Store(t, key, f), now)
  {
    var u := Store(t, key, f);
    StoreConsistent(t, key, f);
    forall i, j | 0 <= i < j < |u.closed| ensures ClosedNoLater(u, u.closed[i], u.closed[j]) {
      assert u.closed[i] in u.closed && u.closed[j] in u.closed;
      if j < |t.closed| {
        assert ClosedNoLater(t, t.closed[i], t.closed[j]);
      } else {
        assert u.closed[i] == t.closed[i] && t.closed[i] in t.closed;
      }
    }
  }

  lemma AdvanceTimely(f: Flow, s: Segment, d: Direction, nextSweep: int, now: int)
    requires FlowConsistent(f) && FlowTimely(f, nextSweep, now) && now < nextSweep <= now + SWEEP_INTERVAL_MS
    ensures Advance(f, s, d, now).Keep? ==> FlowTimely(Advance(f, s, d, now).flow, nextSweep, now)
  {
    AdvanceConsistent(f, s, d, now);
  }

  lemma ApplyTimely(t: Table, key: Key, s: Segment, d: Direction, now: int)
    requires Timely(t, now) && now < t.nextSweep && key in t.flows
    ensures Timely(Apply(t, key, Advance(t.flows[key], s, d, now)).table, now)
  {
    var v := Advance(t.flows[key], s, d, now);
    match v
    case Refuse =>
    case Release => RemoveAllTimely(t, {key}, now);
    case Keep(f) =>
      AdvanceConsistent(t.flows[key], s, d, now);
      AdvanceTimely(t.flows[key], s, d, t.nextSweep, now);
      StoreTimely(t, key, f, now);
  }

  lemma TouchTimely(t: Table, key: Key, now: int)
    requires Timely(t, now) && now < t.nextSweep && key in t.flows
    ensures Timely(Store(t, key, t.flows[key].(lastSeen := now)), now)
  {
    StoreTimely(t, key, t.flows[key].(lastSeen := now), now);
  }

  lemma SegmentTimely(config: Config, t: Table, key: Key, s: Segment, d: Direction, now: int)
    requires Timely(t, now) && now < t.nextSweep
    ensures Timely(AdmitSegment(config, t, key, s, d, now).table, now)
    ensures AdmitSegment(config, t, key, s, d, now).table.nextSweep == t.nextSweep
  {
    if key !in t.flows {
      OpenTimely(config, t, key, s, d, now);
    } else if IsOpening(t, key, s) {
      RemoveAllTimely(t, {key}, now);
      OpenTimely(config, Remove(t, key), key, s, d, now);
    } else {
      ApplyTimely(t, key, s, d, now);
    }
  }

  /** One call at a time no earlier than the last keeps everything timely. */
  lemma PerformTimely(config: Config, t: Table, c: Call, clock: int)
    requires Timely(t, clock) && (c.Packet? ==> clock <= c.now)
    ensures Timely(Perform(config, t, c).table, if c.Packet? then c.now else clock)
    ensures c.Packet? && !c.input.Stray? ==> c.now < Perform(config, t, c).table.nextSweep
  {
    if c.Packet? && !c.input.Stray? {
      SweepTimely(t, clock, c.now);
      var swept, input := Sweep(t, c.now), c.input;
      if input.Tcp? {
        SegmentTimely(config, swept, SegmentKey(input.segment, c.direction), input.segment, c.direction, c.now);
      } else if input.Quoting? && input.key in swept.flows {
        TouchTimely(swept, input.key, c.now);
      }
    }
  }

  /** The time of the last packet among the first `n` calls, 0 before the first. */
  function Clock(tr: Trace, n: nat): int
    requires n <= |tr.calls|
  {
    if n == 0 then 0 else if tr.calls[n - 1].Packet? then tr.calls[n - 1].now else Clock(tr, n - 1)
  }

  /** The clock is never negative and never runs backwards. */
  ghost predicate Monotone(tr: Trace) {
    forall n | 0 <= n < |tr.calls| && tr.calls[n].Packet? :: Clock(tr, n) <= tr.calls[n].now
  }

  lemma {:induction false} ReachableTimely(config: Config, tr: Trace, n: nat)
    requires IsTrace(config, tr) && Monotone(tr) && n <= |tr.calls|
    ensures Timely(tr.tables[n], Clock(tr, n))
  {
    if n > 0 {
      var m: nat := n - 1;
      ReachableTimely(config, tr, m);
      assert Step(config, tr, m);
      PerformTimely(config, tr.tables[m], tr.calls[m], Clock(tr, m));
    }
  }

  /** After any packet that passes the address checks, no flow was closed 61 s ago or earlier, and none that is not
      established was last seen 301 s ago or earlier. */
  lemma ExpiryIsBounded(config: Config, tr: Trace, n: nat, k: Key)
    requires IsTrace(config, tr) && Monotone(tr) && n < |tr.calls|
    requires tr.calls[n].Packet? && !tr.calls[n].input.Stray?
    requires k in tr.tables[n + 1].flows
    ensures var f, now := tr.tables[n + 1].flows[k], tr.calls[n].now;
            && (IsClosed(f) ==> now - f.tracker.closedAt.value < 61_000)
            && (!f.established ==> now - f.lastSeen < 301_000)
  {
    ReachableTimely(config, tr, n);
    assert Step(config, tr, n);
    PerformTimely(config, tr.tables[n], tr.calls[n], Clock(tr, n));
  }

  lemma OpenKeepsNextSweep(config: Config, t: Table, key: Key, s: Segment, d: Direction, now: int)
    ensures Open(config, t, key, s, d, now).table.nextSweep == t.nextSweep
  {
  }

  lemma SegmentKeepsNextSweep(config: Config, t: Table, key: Key, s: Segment, d: Direction, now: int)
    ensures AdmitSegment(config, t, key, s, d, now).table.nextSweep == t.nextSweep
  {
    if key !in t.flows {
      OpenKeepsNextSweep(config, t, key, s, d, now);
    } else if IsOpening(t, key, s) {
      OpenKeepsNextSweep(config, Remove(t, key), key, s, d, now);
    }
  }

  lemma OnlySweepsMoveNextSweep(config: Config, t: Table, c: Call)
    requires c.Packet?
    ensures Perform(config, t, c).table.nextSweep == if c.input.Stray? then t.nextSweep else Sweep(t, c.now).nextSweep
  {
    match c.input
    case Tcp(s) => SegmentKeepsNextSweep(config, Sweep(t, c.now), SegmentKey(s, c.direction), s, c.direction, c.now);
    case _ =>
  }

  lemma NextSweepSet(config: Config, t: Table, c: Call)
    requires c.Packet? && !c.input.Stray? && c.now >= t.nextSweep
    ensures Perform(config, t, c).table.nextSweep == c.now + 1_000
  {
    OnlySweepsMoveNextSweep(config, t, c);
  }

  lemma NextSweepStays(config: Config, t: Table, c: Call)
    requires c.Packet? ==> c.now < t.nextSweep
    ensures Perform(config, t, c).table.nextSweep == t.nextSweep
  {
    if c.Packet? {
      OnlySweepsMoveNextSweep(config, t, c);
    }
  }

  /** No packet among calls `m`+1 to `n`-1 comes as late as `due`. */
  predicate Before(tr: Trace, m: nat, n: nat, due: int)
    requires n <= |tr.calls|
  {
    forall i | m < i < n && tr.calls[i].Packet? :: tr.calls[i].now < due
  }

  lemma {:induction false} NextSweepIsDue(config: Config, tr: Trace, m: nat, n: nat)
    requires IsTrace(config, tr) && m < n <= |tr.calls| && tr.calls[m].Packet? && !tr.calls[m].input.Stray?
    requires tr.calls[m].now >= tr.tables[m].nextSweep && Before(tr, m, n, tr.calls[m].now + 1_000)
    ensures tr.tables[n].nextSweep == tr.calls[m].now + 1_000
    decreases n
  {
    var l: nat := n - 1;
    assert Step(config, tr, l);
    if l == m {
      NextSweepSet(config, tr.tables[m], tr.calls[m]);
    } else {
      NextSweepIsDue(config, tr, m, l);
      NextSweepStays(config, tr.tables[l], tr.calls[l]);
    }
  }

  /** The sweep runs at most once a second: after one, no packet within the next second removes an expired flow. */
  lemma SweptOnceASecond(config: Config, tr: Trace, m: nat, n: nat, now: int)
    requires IsTrace(config, tr) && m < n <= |tr.calls| && tr.calls[m].Packet? && !tr.calls[m].input.Stray?
    requires tr.calls[m].now >= tr.tables[m].nextSweep && Before(tr, m, n, tr.calls[m].now + 1_000)
    requires now < tr.calls[m].now + 1_000
    ensures Sweep(tr.tables[n], now) == tr.tables[n]
  {
    NextSweepIsDue(config, tr, m, n);
  }

  /** A flow disappears without a reset, an eviction, or a packet of its own only after its full grace or idle time. */
  lemma NotSweptEarly(config: Config, t: Table, c: Call, k: Key)
    requires Consistent(t) && c.Packet? && k in t.flows && k !in Perform(config, t, c).table.flows
    requires OwnKey(c) != Some(k) && k !in Evicted(Sweep(t, c.now))
    ensures || (IsClosed(t.flows[k]) && c.now - t.flows[k].tracker.closedAt.value >= 60_000)
            || (!t.flows[k].established && c.now - t.flows[k].lastSeen >= 300_000)
  {
    PacketChangesOnly(config, t, c);
    var swept, u := Sweep(t, c.now), Perform(config, t, c).table;
    assert k !in ExpiredKeys(t, c.now) ==> Unchanged(t, swept, k);
    assert !c.input.Stray? ==> Unchanged(swept, u, k);
  }
}
