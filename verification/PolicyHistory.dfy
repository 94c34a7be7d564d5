/** What an admitted packet says about everything that happened before it on the same policy. */
module PolicyHistory {
  import opened Common
  import opened Packets
  import opened SerialTracker
  import opened FlowTable
  import opened PolicyInvariants

  /** The call is a usable TCP segment on port pair `k`. */
  predicate On(c: Call, k: Key) {
    c.Packet? && c.input.Tcp? && SegmentKey(c.input.segment, c.direction) == k
  }

  function SegmentOf(c: Call): Segment
    requires c.Packet? && c.input.Tcp?
  {
    c.input.segment
  }

  /** The call creates the flow on `k`: there was none after the sweep, or a closed one that it replaces. */
  predicate Opens(config: Config, t: Table, c: Call, k: Key) {
    On(c, k) && Perform(config, t, c).admitted && IsOpening(Sweep(t, c.now), k, SegmentOf(c))
  }

  ghost predicate Refreshed(f: Flow, g: Flow) {
    g == f.(lastSeen := g.lastSeen)
  }

  lemma OwnSegmentStep(config: Config, t: Table, k: Key, s: Segment, d: Direction, now: int)
    requires Consistent(t)
    requires k in AdmitSegment(config, t, k, s, d, now).table.flows
    ensures var o := AdmitSegment(config, t, k, s, d, now);
            if o.admitted && IsOpening(t, k, s) then
              && o.table.flows[k] == NewFlow(s, d, now) && IsRequest(s)
              && (d.In? ==> Granted(config, s.destinationPort))
              && (d.Out? ==> config.allowOutboundInitiation)
            else
              && k in t.flows
              && (if o.admitted then Advance(t.flows[k], s, d, now) == Keep(o.table.flows[k])
                  else o.table.flows[k] == t.flows[k])
  {
    if k in t.flows && IsOpening(t, k, s) {
      RemoveAllConsistent(t, {k});
    }
  }

  lemma OtherSegmentStep(config: Config, t: Table, key: Key, s: Segment, d: Direction, now: int, k: Key)
    requires Consistent(t) && k != key
    requires k in AdmitSegment(config, t, key, s, d, now).table.flows
    ensures k in t.flows && AdmitSegment(config, t, key, s, d, now).table.flows[k] == t.flows[k]
  {
    var u := AdmitSegment(config, t, key, s, d, now).table;
    if key !in t.flows {
      OpenChangesOnly(config, t, key, s, d, now);
      RemoveChangesOnly(t, Evicted(t));
      assert k !in Evicted(t) ==> Unchanged(t, u, k);
    } else if IsOpening(t, key, s) {
      ReopenChangesOnly(config, t, key, s, d, now);
      assert Unchanged(t, u, k);
    } else {
      ApplyChangesOnly(t, key, Advance(t.flows[key], s, d, now));
      assert Unchanged(t, u, k);
    }
  }

  lemma CarriedBySegment(config: Config, t: Table, s: Segment, d: Direction, now: int, k: Key)
    requires Consistent(t) && k != SegmentKey(s, d) && k in Admit(config, t, Tcp(s), d, now).table.flows
    ensures k in t.flows && Admit(config, t, Tcp(s), d, now).table.flows[k] == t.flows[k]
  {
    SweepConsistent(t, now);
    OtherSegmentStep(config, Sweep(t, now), SegmentKey(s, d), s, d, now, k);
  }

  /** A call that is no segment on the port pair carries its flow over. */
  lemma CarriedOver(config: Config, t: Table, c: Call, k: Key)
    requires Consistent(t) && k in Perform(config, t, c).table.flows && !On(c, k)
    ensures k in t.flows && Refreshed(t.flows[k], Perform(config, t, c).table.flows[k])
  {
    if c.Packet? && c.input.Tcp? {
      CarriedBySegment(config, t, c.input.segment, c.direction, c.now, k);
    }
  }

  /** How a flow of the next table came about: created by this call, advanced by an admitted segment of its own, or
      carried over. */
  lemma FlowStep(config: Config, t: Table, c: Call, k: Key)
    requires Consistent(t) && k in Perform(config, t, c).table.flows
    ensures Opens(config, t, c, k) ==>
              var s := SegmentOf(c);
              && Perform(config, t, c).table.flows[k] == NewFlow(s, c.direction, c.now)
              && IsRequest(s)
              && (c.direction.In? ==> Granted(config, s.destinationPort))
              && (c.direction.Out? ==> config.allowOutboundInitiation)
    ensures !Opens(config, t, c, k) ==>
              && k in t.flows
              && (On(c, k) && Perform(config, t, c).admitted ==>
                    Advance(t.flows[k], SegmentOf(c), c.direction, c.now) == Keep(Perform(config, t, c).table.flows[k]))
              && (!(On(c, k) && Perform(config, t, c).admitted) ==>
                    Refreshed(t.flows[k], Perform(config, t, c).table.flows[k]))
  {
    if On(c, k) {
      SweepConsistent(t, c.now);
      OwnSegmentStep(config, Sweep(t, c.now), k, c.input.segment, c.direction, c.now);
    } else {
      CarriedOver(config, t, c, k);
    }
  }

  // ---- The three-way handshake ----

  /** The table has a flow on `k` with the initiator and the sequence number of the opening call. */
  ghost predicate HasFlowOf(t: Table, k: Key, opening: Call) {
    On(opening, k) && k in t.flows
    && t.flows[k].initiator == opening.direction && t.flows[k].sequence == SegmentOf(opening).sequence
  }

  /** A bare SYN that initiation or the grants allow. */
  ghost predicate Requests(config: Config, c: Call, k: Key) {
    && On(c, k) && IsRequest(SegmentOf(c)) && SegmentOf(c).payload == 0
    && (c.direction.In? ==> Granted(config, k.localPort))
    && (c.direction.Out? ==> config.allowOutboundInitiation)
  }

  /** A SYN-ACK that answers the SYN of `opening`. */
  ghost predicate Answers(c: Call, k: Key, opening: Call) {
    && On(c, k) && On(opening, k) && c.direction == opening.direction.Opposite()
    && var s := SegmentOf(c);
       s.syn && s.ack && s.payload == 0 && s.acknowledgement == Wrap32(SegmentOf(opening).sequence + 1)
  }

  ghost predicate RepeatsSyn(c: Call, k: Key, opening: Call) {
    && On(c, k) && On(opening, k) && c.direction == opening.direction
    && var s := SegmentOf(c);
       s.syn && !s.ack && s.payload == 0 && s.sequence == SegmentOf(opening).sequence
  }

  ghost predicate RepeatsAnswer(c: Call, k: Key, opening: Call, answer: Call) {
    Answers(c, k, opening) && On(answer, k) && SegmentOf(c).sequence == SegmentOf(answer).sequence
  }

  /** An ACK that confirms the handshake `opening`, `answer`. */
  ghost predicate Confirms(c: Call, k: Key, opening: Call, answer: Call) {
    && On(c, k) && On(opening, k) && On(answer, k) && c.direction == opening.direction
    && var s := SegmentOf(c);
       && s.ack && !s.syn && !s.rst
       && s.sequence == Wrap32(SegmentOf(opening).sequence + 1)
       && s.acknowledgement == Wrap32(SegmentOf(answer).sequence + 1)
  }

  ghost predicate Within(tr: Trace, n: nat) {
    |tr.tables| == |tr.calls| + 1 && |tr.answers| == |tr.calls| && n <= |tr.calls|
  }

  ghost predicate AdmittedOn(tr: Trace, m: nat, k: Key)
    requires Within(tr, m + 1)
  {
    On(tr.calls[m], k) && tr.answers[m]
  }

  /** Call `m` neither cleared the table nor replaced the flow on `k`. */
  ghost predicate Spares(config: Config, tr: Trace, m: nat, k: Key)
    requires Within(tr, m + 1)
  {
    !tr.calls[m].Clear? && !Opens(config, tr.tables[m], tr.calls[m], k)
  }

  /** After each of the calls `i` to `n`-1 the table has a flow on `k` that stems from call `i`. */
  ghost predicate LivesSince(tr: Trace, k: Key, i: nat, n: nat)
    requires Within(tr, n)
  {
    i < n && forall m | i < m <= n :: HasFlowOf(tr.tables[m], k, tr.calls[i])
  }

  ghost predicate SparedSince(config: Config, tr: Trace, k: Key, i: nat, n: nat)
    requires Within(tr, n)
  {
    forall m | i < m < n :: Spares(config, tr, m, k)
  }

  /** The flow on `k` after `n` calls was created by call `i` and has been in the table, never cleared or replaced, ever
      since. */
  ghost predicate OpenedAt(config: Config, tr: Trace, k: Key, i: nat, n: nat)
    requires Within(tr, n)
  {
    && i < n && Opens(config, tr.tables[i], tr.calls[i], k) && Requests(config, tr.calls[i], k)
    && LivesSince(tr, k, i, n) && SparedSince(config, tr, k, i, n)
  }

  /** Among calls `i`+1 to `n`-1, only repetitions of the SYN of call `i` passed on `k`. */
  ghost predicate OnlySyns(tr: Trace, k: Key, i: nat, n: nat)
    requires Within(tr, n)
  {
    forall m | i < m < n && AdmittedOn(tr, m, k) :: RepeatsSyn(tr.calls[m], k, tr.calls[i])
  }

  /** Among calls `j`+1 to `n`-1, only repetitions of the SYN of call `i` and of the SYN-ACK of call `j` passed on
      `k`. */
  ghost predicate OnlyRepeats(tr: Trace, k: Key, i: nat, j: nat, n: nat)
    requires Within(tr, n) && i < j < n
  {
    forall m | j < m < n && AdmittedOn(tr, m, k) ::
      RepeatsSyn(tr.calls[m], k, tr.calls[i]) || RepeatsAnswer(tr.calls[m], k, tr.calls[i], tr.calls[j])
  }

  /** The table's flow on `k` remembers the answer given by call `c`. */
  ghost predicate Remembers(t: Table, k: Key, c: Call) {
    On(c, k) && k in t.flows && t.flows[k].replied && t.flows[k].responseSequence == Some(SegmentOf(c).sequence)
  }

  ghost predicate EstablishedIn(t: Table, k: Key) {
    k in t.flows && t.flows[k].established
  }

  /** Call `j` answered; before it only repetitions of the SYN passed, and the flow remembers the answer since. */
  ghost predicate AnsweredAt(tr: Trace, k: Key, i: nat, j: nat, n: nat)
    requires Within(tr, n)
  {
    && i < j < n && AdmittedOn(tr, j, k) && Answers(tr.calls[j], k, tr.calls[i])
    && OnlySyns(tr, k, i, j)
    && (forall m | j < m <= n :: Remembers(tr.tables[m], k, tr.calls[j]))
  }

  /** Call `c` confirmed; the flow was not established before it and has been ever since. */
  ghost predicate ConfirmedAt(tr: Trace, k: Key, i: nat, j: nat, c: nat, n: nat)
    requires Within(tr, n)
  {
    && i < j < c < n && AdmittedOn(tr, c, k) && Confirms(tr.calls[c], k, tr.calls[i], tr.calls[j])
    && OnlyRepeats(tr, k, i, j, c)
    && k in tr.tables[c].flows && !tr.tables[c].flows[k].established && tr.tables[c].flows[k].tracker == Untouched
    && (forall m | c < m <= n :: EstablishedIn(tr.tables[m], k))
  }

  /** The handshake so far of the flow on `k`, from the marks `i`, `j`, `c`. */
  ghost predicate HasStages(tr: Trace, k: Key, i: nat, j: nat, c: nat, n: nat)
    requires Within(tr, n)
  {
    && LivesSince(tr, k, i, n) && k in tr.tables[n].flows
    && var f := tr.tables[n].flows[k];
       && (!f.replied ==> OnlySyns(tr, k, i, n))
       && (f.replied ==> AnsweredAt(tr, k, i, j, n))
       && (f.replied && !f.established ==> OnlyRepeats(tr, k, i, j, n))
       && (f.established ==> f.replied && ConfirmedAt(tr, k, i, j, c, n))
  }

  lemma OpenStep(config: Config, tr: Trace, p: nat, k: Key)
    requires IsTrace(config, tr) && p < |tr.calls| && k in tr.tables[p + 1].flows
    requires Consistent(tr.tables[p]) && Opens(config, tr.tables[p], tr.calls[p], k)
    ensures OpenedAt(config, tr, k, p, p + 1) && HasStages(tr, k, p, 0, 0, p + 1)
  {
    assert Step(config, tr, p);
    FlowStep(config, tr.tables[p], tr.calls[p], k);
  }

  lemma CarryStep(tr: Trace, p: nat, k: Key, i: nat, j: nat, c: nat)
    requires Within(tr, p + 1) && HasStages(tr, k, i, j, c, p)
    requires !AdmittedOn(tr, p, k)
    requires k in tr.tables[p + 1].flows && Refreshed(tr.tables[p].flows[k], tr.tables[p + 1].flows[k])
    ensures HasStages(tr, k, i, j, c, p + 1)
  {
    assert HasFlowOf(tr.tables[p], k, tr.calls[i]);
  }

  /** An admitted segment on `k` at call `p` advances the flow. */
  ghost predicate Advances(tr: Trace, p: nat, k: Key)
    requires Within(tr, p + 1)
  {
    && AdmittedOn(tr, p, k) && BareSyn(tr.calls[p].input)
    && k in tr.tables[p].flows && FlowConsistent(tr.tables[p].flows[k]) && k in tr.tables[p + 1].flows
    && Advance(tr.tables[p].flows[k], SegmentOf(tr.calls[p]), tr.calls[p].direction, tr.calls[p].now)
       == Keep(tr.tables[p + 1].flows[k])
  }

  lemma AdvanceKeepsLife(tr: Trace, p: nat, k: Key, i: nat)
    requires Within(tr, p + 1) && Advances(tr, p, k) && LivesSince(tr, k, i, p)
    ensures LivesSince(tr, k, i, p + 1)
  {
    assert HasFlowOf(tr.tables[p], k, tr.calls[i]);
    AdvanceConsistent(tr.tables[p].flows[k], SegmentOf(tr.calls[p]), tr.calls[p].direction, tr.calls[p].now);
  }

  lemma AdvanceUnanswered(tr: Trace, p: nat, k: Key, i: nat)
    requires Within(tr, p + 1) && Advances(tr, p, k) && LivesSince(tr, k, i, p)
    requires !tr.tables[p].flows[k].replied && OnlySyns(tr, k, i, p)
    ensures var g := tr.tables[p + 1].flows[k];
            !g.established && if g.replied then AnsweredAt(tr, k, i, p, p + 1) else OnlySyns(tr, k, i, p + 1)
    ensures tr.tables[p + 1].flows[k].replied ==> OnlyRepeats(tr, k, i, p, p + 1)
  {
    assert HasFlowOf(tr.tables[p], k, tr.calls[i]);
  }

  lemma AdvanceKeepsAnswer(tr: Trace, p: nat, k: Key, i: nat, j: nat)
    requires Within(tr, p + 1) && Advances(tr, p, k) && AnsweredAt(tr, k, i, j, p)
    ensures AnsweredAt(tr, k, i, j, p + 1)
  {
    assert Remembers(tr.tables[p], k, tr.calls[j]);
    AdvanceConsistent(tr.tables[p].flows[k], SegmentOf(tr.calls[p]), tr.calls[p].direction, tr.calls[p].now);
  }

  lemma AdvanceAnswered(tr: Trace, p: nat, k: Key, i: nat, j: nat)
    requires Within(tr, p + 1) && Advances(tr, p, k) && LivesSince(tr, k, i, p) && AnsweredAt(tr, k, i, j, p)
    requires !tr.tables[p].flows[k].established && OnlyRepeats(tr, k, i, j, p)
    ensures if tr.tables[p + 1].flows[k].established then ConfirmedAt(tr, k, i, j, p, p + 1)
            else OnlyRepeats(tr, k, i, j, p + 1)
  {
    assert HasFlowOf(tr.tables[p], k, tr.calls[i]) && Remembers(tr.tables[p], k, tr.calls[j]);
    var call := tr.calls[p];
    if tr.tables[p + 1].flows[k].established {
      assert Confirms(call, k, tr.calls[i], tr.calls[j]);
    } else {
      assert RepeatsSyn(call, k, tr.calls[i]) || RepeatsAnswer(call, k, tr.calls[i], tr.calls[j]);
    }
  }

  lemma AdvanceStep(tr: Trace, p: nat, k: Key, i: nat, j: nat, c: nat) returns (j': nat, c': nat)
    requires Within(tr, p + 1) && Advances(tr, p, k) && HasStages(tr, k, i, j, c, p)
    ensures HasStages(tr, k, i, j', c', p + 1)
  {
    var f, g := tr.tables[p].flows[k], tr.tables[p + 1].flows[k];
    AdvanceKeepsLife(tr, p, k, i);
    j', c' := j, c;
    if !f.replied {
      AdvanceUnanswered(tr, p, k, i);
      j' := p;
    } else {
      AdvanceKeepsAnswer(tr, p, k, i, j);
      if !f.established {
        AdvanceAnswered(tr, p, k, i, j);
        c' := p;
      } else {
        assert EstablishedIn(tr.tables[p], k);
        AdvanceConsistent(f, SegmentOf(tr.calls[p]), tr.calls[p].direction, tr.calls[p].now);
      }
      assert Remembers(tr.tables[p + 1], k, tr.calls[j]);
    }
  }

  /** The origin of every tracked flow: its opening SYN, then the answer, then the confirmation, in this order, with
      nothing but repetitions of the first two let through before it is established. */
  lemma {:induction false} FlowOrigin(config: Config, tr: Trace, n: nat, k: Key) returns (i: nat, j: nat, c: nat)
    requires IsTrace(config, tr) && n <= |tr.calls| && k in tr.tables[n].flows
    ensures OpenedAt(config, tr, k, i, n) && HasStages(tr, k, i, j, c, n)
  {
    var p := n - 1;
    ReachableConsistent(config, tr, p);
    assert Step(config, tr, p);
    FlowStep(config, tr.tables[p], tr.calls[p], k);
    if Opens(config, tr.tables[p], tr.calls[p], k) {
      OpenStep(config, tr, p, k);
      i, j, c := p, 0, 0;
    } else {
      i, j, c := FlowOrigin(config, tr, p, k);
      if AdmittedOn(tr, p, k) {
        j, c := AdvanceStep(tr, p, k, i, j, c);
      } else {
        CarryStep(tr, p, k, i, j, c);
      }
    }
  }

  /** Three-way handshake, over whole runs: an established flow was opened by a bare SYN, answered by a SYN-ACK from the
      other side and confirmed by an ACK, with matching numbers, in that order, within one uninterrupted life of the
      flow. */
  lemma EstablishedOnlyByHandshake(config: Config, tr: Trace, n: nat, k: Key)
    requires IsTrace(config, tr) && n <= |tr.calls| && EstablishedIn(tr.tables[n], k)
    ensures exists i: nat, j: nat, c: nat ::
              OpenedAt(config, tr, k, i, n) && AnsweredAt(tr, k, i, j, n) && ConfirmedAt(tr, k, i, j, c, n)
  {
    var i, j, c := FlowOrigin(config, tr, n, k);
    assert OpenedAt(config, tr, k, i, n) && AnsweredAt(tr, k, i, j, n) && ConfirmedAt(tr, k, i, j, c, n);
  }

  /** While a flow is not established, an admitted segment on it that neither continues nor replaces it is a reset with
      matching numbers. */
  lemma UnestablishedReleasedOnlyByMatchingReset(config: Config, t: Table, call: Call, k: Key)
    requires Consistent(t) && On(call, k) && BareSyn(call.input) && k in Sweep(t, call.now).flows
    requires !Sweep(t, call.now).flows[k].established
    requires Perform(config, t, call).admitted && k !in Perform(config, t, call).table.flows
    ensures var f, s := Sweep(t, call.now).flows[k], SegmentOf(call);
            && s.rst
            && (call.direction == f.initiator ==>
                  f.replied && s.sequence == Wrap32(f.sequence + 1)
                  && (s.ack ==> s.acknowledgement == After(f.responseSequence)))
            && (call.direction != f.initiator ==> !f.replied && s.ack && s.acknowledgement == Wrap32(f.sequence + 1))
  {
    SweepConsistent(t, call.now);
  }

  // ---- Default deny ----

  /** An inbound segment to a port without a grant passes only if an outbound SYN on its port pair passed earlier, and
      the flow that SYN created was never removed, replaced or cleared in between. */
  lemma UngrantedInboundNeedsOutboundFlow(config: Config, tr: Trace, n: nat, k: Key)
    requires IsTrace(config, tr) && n < |tr.calls|
    requires AdmittedOn(tr, n, k) && tr.calls[n].direction.In? && !Granted(config, k.localPort)
    ensures exists i: nat :: i < n && OpenedAt(config, tr, k, i, n) && tr.calls[i].direction.Out?
  {
    assert Step(config, tr, n);
    ReachableConsistent(config, tr, n);
    var t := tr.tables[n];
    assert k in Sweep(t, tr.calls[n].now).flows && k in t.flows;
    var i, j, c := FlowOrigin(config, tr, n, k);
    assert OpenedAt(config, tr, k, i, n) && tr.calls[i].direction.Out?;
  }

  /** With no grants and outbound initiation off, no packet is ever admitted. */
  lemma {:induction false} ClosedDoor(config: Config, tr: Trace, n: nat)
    requires IsTrace(config, tr) && n <= |tr.calls|
    requires config.ports == Ports({}) && !config.allowOutboundInitiation
    ensures tr.tables[n].flows == map[]
    ensures n > 0 && tr.calls[n - 1].Packet? ==> !tr.answers[n - 1]
  {
    if n > 0 {
      ClosedDoor(config, tr, n - 1);
      assert Step(config, tr, n - 1);
      assert tr.calls[n - 1].Packet? ==> Sweep(tr.tables[n - 1], tr.calls[n - 1].now).flows == map[];
    }
  }

  // ---- Closing ----

  /** What the admitted segments on `k` among calls `a` to `b`-1 told the tracker. */
  function EventsOn(tr: Trace, k: Key, a: nat, b: nat): seq<Event>
    requires a <= b && Within(tr, b)
  {
    if a == b then []
    else
      var front, c := EventsOn(tr, k, a, b - 1), tr.calls[b - 1];
      if On(c, k) && tr.answers[b - 1] then front + [EventOf(SegmentOf(c), c.direction, c.now)] else front
  }

  lemma {:induction false} TrackerFollows(config: Config, tr: Trace, k: Key, i: nat, j: nat, c: nat, n: nat, m: nat)
    requires IsTrace(config, tr) && n <= |tr.calls|
    requires OpenedAt(config, tr, k, i, n) && ConfirmedAt(tr, k, i, j, c, n)
    requires c < m <= n
    ensures k in tr.tables[m].flows && tr.tables[m].flows[k].tracker == TrackAll(Untouched, EventsOn(tr, k, c, m))
  {
    var p := m - 1;
    ReachableConsistent(config, tr, p);
    assert Step(config, tr, p) && Spares(config, tr, p, k) && EstablishedIn(tr.tables[m], k);
    FlowStep(config, tr.tables[p], tr.calls[p], k);
    if p > c {
      TrackerFollows(config, tr, k, i, j, c, n, p);
      assert EstablishedIn(tr.tables[p], k);
    } else {
      assert EventsOn(tr, k, c, p) == [];
    }
    var front := EventsOn(tr, k, c, p);
    if AdmittedOn(tr, p, k) {
      var e := EventOf(SegmentOf(tr.calls[p]), tr.calls[p].direction, tr.calls[p].now);
      assert (front + [e])[..|front|] == front;
      AdvanceFeedsTracker(tr.tables[p].flows[k], SegmentOf(tr.calls[p]), tr.calls[p].direction, tr.calls[p].now);
    }
  }

  lemma AdvanceFeedsTracker(f: Flow, s: Segment, d: Direction, now: int)
    requires Advance(f, s, d, now).Keep? && Advance(f, s, d, now).flow.established
    ensures Advance(f, s, d, now).flow.tracker == Track(f.tracker, EventOf(s, d, now))
  {
  }
}
