/** Which segments pass, both ways: conditions on the fields of a segment and of the stored flow that are met exactly
    when the segment is admitted, and what an admitted one does. */
module FlowAdmission {
  import opened Common
  import opened Packets
  import opened SerialTracker
  import opened FlowTable
  import opened PolicyInvariants
  import opened PolicyHistory

  /** `a` is the sequence number right after `b`. */
  predicate Follows(a: u32, b: u32) {
    if b == 0xffff_ffff then a == 0 else a == b + 1
  }

  lemma WrapFollows(a: u32, b: u32)
    ensures a == Wrap32(b + 1) <==> Follows(a, b)
  {
  }

  // ---- The segments of a handshake, against the stored flow ----

  /** The SYN of the opening, once more. */
  predicate RepeatsOpening(f: Flow, s: Segment, d: Direction) {
    d == f.initiator && s.syn && !s.ack && s.sequence == f.sequence
  }

  /** A SYN-ACK from the other side for the stored SYN. */
  predicate AnswersOpening(f: Flow, s: Segment, d: Direction) {
    d != f.initiator && s.syn && s.ack && Follows(s.acknowledgement, f.sequence)
  }

  /** The same SYN-ACK as the stored one. */
  predicate RepeatsResponse(f: Flow, s: Segment, d: Direction) {
    AnswersOpening(f, s, d) && f.responseSequence == Some(s.sequence)
  }

  predicate AcksResponse(f: Flow, s: Segment) {
    s.ack && f.responseSequence.Some? && Follows(s.acknowledgement, f.responseSequence.value)
  }

  /** The ACK that completes the handshake; it may carry data or a FIN. */
  predicate ConfirmsResponse(f: Flow, s: Segment, d: Direction) {
    d == f.initiator && !s.syn && !s.rst && Follows(s.sequence, f.sequence) && AcksResponse(f, s)
  }

  /** The other side declines the connection. */
  predicate Declines(f: Flow, s: Segment, d: Direction) {
    d != f.initiator && s.rst && s.ack && Follows(s.acknowledgement, f.sequence)
  }

  /** The initiator gives the answered connection up. */
  predicate Abandons(f: Flow, s: Segment, d: Direction) {
    d == f.initiator && s.rst && !s.syn && Follows(s.sequence, f.sequence) && (s.ack ==> AcksResponse(f, s))
  }

  /** The segments that may pass on a flow. */
  predicate MayPass(f: Flow, s: Segment, d: Direction) {
    if !f.replied then RepeatsOpening(f, s, d) || AnswersOpening(f, s, d) || Declines(f, s, d)
    else if !f.established then
      RepeatsOpening(f, s, d) || RepeatsResponse(f, s, d) || ConfirmsResponse(f, s, d) || Abandons(f, s, d)
    else d == f.initiator || !s.syn || s.ack
  }

  /** A fresh SYN on a flow that is fully closed: it asks for a new connection. */
  predicate Replaces(f: Flow, s: Segment) {
    f.tracker.closedAt.Some? && s.syn && !s.ack
  }

  /** What a passing segment other than a reset makes of the flow; the tracker is the subject of `FlowClosing`. */
  ghost predicate Becomes(f: Flow, g: Flow, s: Segment, d: Direction, now: int) {
    && g.initiator == f.initiator && g.sequence == f.sequence && g.lastSeen == now
    && g.replied == (f.replied || AnswersOpening(f, s, d))
    && g.responseSequence == (if f.replied then f.responseSequence
                              else if AnswersOpening(f, s, d) then Some(s.sequence) else f.responseSequence)
    && g.established == (f.established || (f.replied && ConfirmsResponse(f, s, d)))
    && (!g.established ==> g.tracker == Untouched)
  }

  lemma AdvanceExactly(f: Flow, s: Segment, d: Direction, now: int)
    requires FlowConsistent(f) && BareSyn(Tcp(s))
    ensures Advance(f, s, d, now).Refuse? <==> !MayPass(f, s, d)
    ensures Advance(f, s, d, now).Release? <==> MayPass(f, s, d) && s.rst
    ensures MayPass(f, s, d) && !s.rst ==> Becomes(f, Advance(f, s, d, now).flow, s, d, now)
  {
    WrapFollows(s.acknowledgement, f.sequence);
    WrapFollows(s.sequence, f.sequence);
    if f.responseSequence.Some? {
      WrapFollows(s.acknowledgement, f.responseSequence.value);
    }
  }

  /** A TCP segment on a tracked port pair, unless it replaces a closed flow: it is admitted exactly if it may pass on
      the flow as the sweep leaves it; a passing reset ends the flow, any other passing segment moves it on, and a
      refused one changes nothing. */
  lemma TrackedAdmittedExactly(config: Config, t: Table, c: Call, k: Key)
    requires Consistent(t) && On(c, k) && BareSyn(c.input) && k in Sweep(t, c.now).flows
    requires !Replaces(Sweep(t, c.now).flows[k], SegmentOf(c))
    ensures var f, s, o := Sweep(t, c.now).flows[k], SegmentOf(c), Perform(config, t, c);
            && (o.admitted <==> MayPass(f, s, c.direction))
            && (k in o.table.flows <==> !(o.admitted && s.rst))
            && (!o.admitted ==> o.table.flows[k] == f)
            && (o.admitted && !s.rst ==> Becomes(f, o.table.flows[k], s, c.direction, c.now))
  {
    SweepConsistent(t, c.now);
    AdvanceExactly(Sweep(t, c.now).flows[k], SegmentOf(c), c.direction, c.now);
  }

  /** There is no flow on the port pair, or the segment replaces the one there is. */
  predicate IsFree(t: Table, k: Key, s: Segment) {
    k in t.flows ==> Replaces(t.flows[k], s)
  }

  /** A TCP segment that asks for a new connection: it is admitted exactly if it is a SYN without ACK or RST, its side
      may initiate, an inbound one goes to a granted port, and fewer than 4096 flows are not closed; the new flow
      remembers its side and its number. */
  lemma OpeningAdmittedExactly(config: Config, t: Table, c: Call, k: Key)
    requires Consistent(t) && On(c, k) && IsFree(Sweep(t, c.now), k, SegmentOf(c))
    ensures var s, o := SegmentOf(c), Perform(config, t, c);
            && (o.admitted <==>
                  && s.syn && !s.ack && !s.rst
                  && (c.direction.Out? ==> config.allowOutboundInitiation)
                  && (c.direction.In? ==> config.ports.All? || k.localPort in config.ports.ports)
                  && |OpenFlows(Sweep(t, c.now))| < 4096)
            && (o.admitted ==>
                  && k in o.table.flows
                  && o.table.flows[k] == Flow(c.direction, s.sequence, false, false, None, Untouched, c.now))
  {
    var swept, s := Sweep(t, c.now), SegmentOf(c);
    SweepConsistent(t, c.now);
    if OtherwiseAdmissible(config, swept, k, s, c.direction) {
      RefusedForCapacityExactly(config, swept, k, s, c.direction, c.now);
    }
  }

  /** An ICMP error is admitted exactly if the flow it quotes is tracked after the sweep, and only refreshes that flow;
      what is neither a TCP segment nor such an error is never admitted. */
  lemma OtherAdmittedExactly(config: Config, t: Table, c: Call)
    requires c.Packet? && !c.input.Tcp?
    ensures var swept, o := Sweep(t, c.now), Perform(config, t, c);
            && (o.admitted <==> c.input.Quoting? && c.input.key in swept.flows)
            && (o.admitted ==> o.table.flows == swept.flows[c.input.key :=
                                                             swept.flows[c.input.key].(lastSeen := c.now)])
            && (!o.admitted ==> o.table == if c.input.Stray? then t else swept)
  {
  }

  // ---- The handshake over whole runs, as an equivalence ----

  /** No call between `i` and `n` answers the opening `i`. */
  ghost predicate Unanswered(tr: Trace, k: Key, i: nat, n: nat)
    requires n <= |tr.calls|
  {
    forall m | i < m < n :: !Answers(tr.calls[m], k, tr.calls[i])
  }

  /** Call `j` is the first to answer the opening `i`. */
  ghost predicate AnswersFirst(tr: Trace, k: Key, i: nat, j: nat)
    requires j < |tr.calls|
  {
    i < j && Answers(tr.calls[j], k, tr.calls[i]) && Unanswered(tr, k, i, j)
  }

  /** Some call after `j` and before `n` confirms the handshake of `i` and `j`. */
  ghost predicate Confirmed(tr: Trace, k: Key, i: nat, j: nat, n: nat)
    requires i < j < n <= |tr.calls|
  {
    exists c: nat :: j < c < n && Confirms(tr.calls[c], k, tr.calls[i], tr.calls[j])
  }

  /** What calls `i` to `n`-1, admitted or not, say about the flow on `k`. */
  ghost predicate InStage(tr: Trace, k: Key, i: nat, j: nat, n: nat)
    requires Within(tr, n) && i < n
  {
    && k in tr.tables[n].flows
    && var f := tr.tables[n].flows[k];
       if !f.replied then Unanswered(tr, k, i, n) && !f.established
       else
         && i < j < n && AnswersFirst(tr, k, i, j) && Remembers(tr.tables[n], k, tr.calls[j])
         && (f.established <==> Confirmed(tr, k, i, j, n))
  }

  /** How a call that neither clears nor replaces moves the handshake of a flow that is there before and after it. */
  lemma StageStep(config: Config, t: Table, c: Call, k: Key)
    requires Consistent(t) && (c.Packet? ==> BareSyn(c.input)) && !c.Clear? && !Opens(config, t, c, k)
    requires k in t.flows && k in Perform(config, t, c).table.flows
    ensures var f, g := t.flows[k], Perform(config, t, c).table.flows[k];
            && (!f.replied ==> !g.established
                               && (g.replied <==> On(c, k) && AnswersOpening(f, SegmentOf(c), c.direction))
                               && (g.replied ==> g.responseSequence == Some(SegmentOf(c).sequence)))
            && (f.replied ==> g.replied && g.responseSequence == f.responseSequence
                              && (g.established <==>
                                    f.established || (On(c, k) && ConfirmsResponse(f, SegmentOf(c), c.direction))))
  {
    FlowStep(config, t, c, k);
    if On(c, k) {
      assert k in Sweep(t, c.now).flows && Sweep(t, c.now).flows[k] == t.flows[k];
      if !Replaces(t.flows[k], SegmentOf(c)) {
        TrackedAdmittedExactly(config, t, c, k);
      }
    }
  }

  lemma AnswerOfOpening(t: Table, k: Key, opening: Call, c: Call)
    requires HasFlowOf(t, k, opening) && On(c, k) && BareSyn(c.input)
    ensures AnswersOpening(t.flows[k], SegmentOf(c), c.direction) <==> Answers(c, k, opening)
  {
    WrapFollows(SegmentOf(c).acknowledgement, t.flows[k].sequence);
  }

  lemma ConfirmationOfAnswer(t: Table, k: Key, opening: Call, answer: Call, c: Call)
    requires HasFlowOf(t, k, opening) && Remembers(t, k, answer) && On(c, k)
    ensures ConfirmsResponse(t.flows[k], SegmentOf(c), c.direction) <==> Confirms(c, k, opening, answer)
  {
    WrapFollows(SegmentOf(c).sequence, t.flows[k].sequence);
    WrapFollows(SegmentOf(c).acknowledgement, SegmentOf(answer).sequence);
  }

  lemma UnansweredStage(config: Config, tr: Trace, k: Key, i: nat, j: nat, m: nat, n: nat) returns (j': nat)
    requires IsTrace(config, tr) && i < m < |tr.calls| && n == m + 1
    requires HasFlowOf(tr.tables[m], k, tr.calls[i]) && HasFlowOf(tr.tables[n], k, tr.calls[i])
    requires Spares(config, tr, m, k) && InStage(tr, k, i, j, m) && !tr.tables[m].flows[k].replied
    ensures InStage(tr, k, i, j', n)
  {
    assert Step(config, tr, m);
    ReachableConsistent(config, tr, m);
    StageStep(config, tr.tables[m], tr.calls[m], k);
    if On(tr.calls[m], k) {
      AnswerOfOpening(tr.tables[m], k, tr.calls[i], tr.calls[m]);
    }
    j' := m;
  }

  lemma AnsweredStage(config: Config, tr: Trace, k: Key, i: nat, j: nat, m: nat, n: nat)
    requires IsTrace(config, tr) && i < m < |tr.calls| && n == m + 1
    requires HasFlowOf(tr.tables[m], k, tr.calls[i]) && HasFlowOf(tr.tables[n], k, tr.calls[i])
    requires Spares(config, tr, m, k) && InStage(tr, k, i, j, m) && tr.tables[m].flows[k].replied
    ensures InStage(tr, k, i, j, n)
  {
    assert Step(config, tr, m);
    ReachableConsistent(config, tr, m);
    StageStep(config, tr.tables[m], tr.calls[m], k);
    if On(tr.calls[m], k) {
      ConfirmationOfAnswer(tr.tables[m], k, tr.calls[i], tr.calls[j], tr.calls[m]);
    }
  }

  lemma {:induction false} StageHolds(config: Config, tr: Trace, k: Key, i: nat, n: nat) returns (j: nat)
    requires IsTrace(config, tr) && n <= |tr.calls| && OpenedAt(config, tr, k, i, n)
    ensures InStage(tr, k, i, j, n)
  {
    var m: nat := n - 1;
    assert HasFlowOf(tr.tables[n], k, tr.calls[i]);
    if m == i {
      assert Step(config, tr, m);
      ReachableConsistent(config, tr, m);
      FlowStep(config, tr.tables[m], tr.calls[m], k);
      j := 0;
    } else {
      assert HasFlowOf(tr.tables[m], k, tr.calls[i]) && Spares(config, tr, m, k);
      j := StageHolds(config, tr, k, i, m);
      if tr.tables[m].flows[k].replied {
        AnsweredStage(config, tr, k, i, j, m, n);
      } else {
        j := UnansweredStage(config, tr, k, i, j, m, n);
      }
    }
  }

  /** The handshake, both ways, over whole runs: a tracked flow is established exactly if, since the SYN that opened it,
      the first SYN-ACK that answers it was followed by an ACK that confirms that answer. */
  lemma EstablishedExactlyByHandshake(config: Config, tr: Trace, n: nat, k: Key) returns (i: nat)
    requires IsTrace(config, tr) && n <= |tr.calls| && k in tr.tables[n].flows
    ensures OpenedAt(config, tr, k, i, n)
    ensures tr.tables[n].flows[k].established <==>
            exists j: nat :: j < n && AnswersFirst(tr, k, i, j) && Confirmed(tr, k, i, j, n)
  {
    var j, c;
    i, j, c := FlowOrigin(config, tr, n, k);
    j := StageHolds(config, tr, k, i, n);
    if tr.tables[n].flows[k].replied {
      forall l: nat | l < n && AnswersFirst(tr, k, i, l) ensures l == j {
      }
    }
  }

  lemma FreshSurvives(t: Table, k: Key, now: int)
    requires k in t.flows && !IsClosed(t.flows[k]) && now - t.flows[k].lastSeen < 300_000
    ensures k in Sweep(t, now).flows && Sweep(t, now).flows[k] == t.flows[k]
  {
  }

  lemma AnswerPasses(config: Config, t: Table, k: Key, opening: Call, answer: Call)
    requires Consistent(t) && HasFlowOf(t, k, opening) && !t.flows[k].replied && !t.flows[k].established
    requires Answers(answer, k, opening) && BareSyn(answer.input) && answer.now - t.flows[k].lastSeen < 300_000
    ensures var o := Perform(config, t, answer);
            && o.admitted && HasFlowOf(o.table, k, opening) && Remembers(o.table, k, answer)
            && !o.table.flows[k].established && o.table.flows[k].lastSeen == answer.now
  {
    FreshSurvives(t, k, answer.now);
    AnswerOfOpening(t, k, opening, answer);
    TrackedAdmittedExactly(config, t, answer, k);
  }

  lemma ConfirmationPasses(config: Config, t: Table, k: Key, opening: Call, answer: Call, c: Call)
    requires Consistent(t) && HasFlowOf(t, k, opening) && Remembers(t, k, answer) && !t.flows[k].established
    requires Confirms(c, k, opening, answer) && BareSyn(c.input) && c.now - t.flows[k].lastSeen < 300_000
    ensures Perform(config, t, c).admitted && EstablishedIn(Perform(config, t, c).table, k)
  {
    FreshSurvives(t, k, c.now);
    ConfirmationOfAnswer(t, k, opening, answer, c);
    TrackedAdmittedExactly(config, t, c, k);
  }

  /** Every handshake goes through: once its SYN is admitted, a SYN-ACK that answers it and an ACK that confirms that
      answer, each within five minutes of the one before, are admitted, and then the connection is established. */
  lemma HandshakePasses(config: Config, t: Table, k: Key, opening: Call, answer: Call, c: Call)
    requires Consistent(t) && On(opening, k) && IsFree(Sweep(t, opening.now), k, SegmentOf(opening))
    requires Perform(config, t, opening).admitted
    requires Answers(answer, k, opening) && BareSyn(answer.input) && answer.now - opening.now < 300_000
    requires Confirms(c, k, opening, answer) && BareSyn(c.input) && c.now - answer.now < 300_000
    ensures var begun := Perform(config, t, opening).table;
            var answered := Perform(config, begun, answer);
            var confirmed := Perform(config, answered.table, c);
            answered.admitted && confirmed.admitted && EstablishedIn(confirmed.table, k)
  {
    var begun := Perform(config, t, opening).table;
    OpeningAdmittedExactly(config, t, opening, k);
    PerformConsistent(config, t, opening);
    AnswerPasses(config, begun, k, opening, answer);
    PerformConsistent(config, begun, answer);
    ConfirmationPasses(config, Perform(config, begun, answer).table, k, opening, answer, c);
  }
}
