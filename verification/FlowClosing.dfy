/** When a connection counts as closed, in terms of the segments themselves: each side's first FIN, and an
    acknowledgement from the other side that covers it. */
module FlowClosing {
  import opened Common
  import opened Packets
  import opened SerialTracker
  import opened FlowTable
  import opened PolicyInvariants
  import opened PolicyHistory

  /** The true, unbounded numbers behind the two sequence fields of a segment. */
  datatype Numbers = Numbers(sequence: int, acknowledgement: int)

  /** The segments admitted on `k` by calls `a` to `b`-1 carry these numbers modulo 2^32. */
  ghost predicate Behind(tr: Trace, k: Key, a: nat, b: nat, truth: seq<Numbers>)
    requires Within(tr, b)
  {
    && |truth| >= b
    && forall m | a <= m < b && AdmittedOn(tr, m, k) ::
         && truth[m].sequence % TWO32 == SegmentOf(tr.calls[m]).sequence
         && (SegmentOf(tr.calls[m]).ack ==> truth[m].acknowledgement % TWO32 == SegmentOf(tr.calls[m]).acknowledgement)
  }

  /** The true number after everything a segment with FIN occupies: its data, and one for the FIN. */
  function FinEnd(tr: Trace, truth: seq<Numbers>, m: nat): int
    requires m < |tr.calls| && m < |truth| && tr.calls[m].Packet? && tr.calls[m].input.Tcp?
  {
    truth[m].sequence + SegmentOf(tr.calls[m]).payload + 1
  }

  /** What the tracker would see if the fields were not cut to 32 bits. */
  function TrueEvents(tr: Trace, k: Key, truth: seq<Numbers>, a: nat, b: nat): seq<Event>
    requires a <= b && Within(tr, b) && b <= |truth|
  {
    if a == b then []
    else
      var m: nat := b - 1;
      var front, c := TrueEvents(tr, k, truth, a, m), tr.calls[m];
      if On(c, k) && tr.answers[m] then
        front + [Event(c.direction, if SegmentOf(c).ack then Some(truth[m].acknowledgement) else None,
                       if SegmentOf(c).fin then Some(FinEnd(tr, truth, m)) else None, c.now)]
      else front
  }

  // ---- Closing, by the segments ----

  /** Call `p` brings the first FIN from side `d` since call `a`. */
  ghost predicate FirstFinAt(tr: Trace, k: Key, a: nat, b: nat, d: Direction, p: nat)
    requires Within(tr, b)
  {
    a <= p < b && FinAt(tr, k, p, d) && forall q | a <= q < p :: !FinAt(tr, k, q, d)
  }

  ghost predicate FinAt(tr: Trace, k: Key, m: nat, d: Direction)
    requires Within(tr, m + 1)
  {
    AdmittedOn(tr, m, k) && tr.calls[m].direction == d && SegmentOf(tr.calls[m]).fin
  }

  ghost predicate AckAt(tr: Trace, k: Key, m: nat, d: Direction)
    requires Within(tr, m + 1)
  {
    AdmittedOn(tr, m, k) && tr.calls[m].direction == d && SegmentOf(tr.calls[m]).ack
  }

  /** Side `d` has sent a FIN, and an acknowledgement from the other side covers the first one. */
  ghost predicate SideDone(tr: Trace, k: Key, a: nat, b: nat, truth: seq<Numbers>, d: Direction)
    requires Within(tr, b) && b <= |truth|
  {
    exists p: nat, q: nat ::
      && FirstFinAt(tr, k, a, b, d, p) && a <= q < b && AckAt(tr, k, q, d.Opposite())
      && truth[q].acknowledgement >= truth[p].sequence + SegmentOf(tr.calls[p]).payload + 1
  }

  lemma LowSum(x: int, y: int)
    ensures (x + y) % TWO32 == (x % TWO32 + y) % TWO32
  {
    ModShift(x / TWO32, TWO32, x % TWO32 + y);
  }

  lemma {:induction false} TrueEventsOnWire(tr: Trace, k: Key, truth: seq<Numbers>, a: nat, b: nat)
    requires a <= b && Within(tr, b) && Behind(tr, k, a, b, truth)
    ensures WireAll(TrueEvents(tr, k, truth, a, b)) == EventsOn(tr, k, a, b)
  {
    if a < b {
      var m: nat := b - 1;
      TrueEventsOnWire(tr, k, truth, a, m);
      if AdmittedOn(tr, m, k) {
        LowSum(truth[m].sequence, SegmentOf(tr.calls[m]).payload + 1);
      }
    }
  }

  lemma OneMoreEvent(front: seq<Event>, e: Event, d: Direction)
    ensures var f, m := FirstFin(front, d), MaxAck(front, d);
            && FirstFin(front + [e], d) == (if f.None? && e.direction == d then e.fin else f)
            && MaxAck(front + [e], d) == (if e.direction == d && e.ack.Some? && (m.None? || e.ack.value >= m.value)
                                          then e.ack else m)
  {
    assert (front + [e])[..|front|] == front;
  }

  /** The reference's first FIN of a side is the end of the first segment with FIN. */
  lemma {:induction false} FirstFinOfSegments(tr: Trace, k: Key, truth: seq<Numbers>, a: nat, b: nat, d: Direction)
    returns (p: nat)
    requires a <= b && Within(tr, b) && b <= |truth|
    ensures var f := FirstFin(TrueEvents(tr, k, truth, a, b), d);
            if f.Some? then FirstFinAt(tr, k, a, b, d, p) && f.value == FinEnd(tr, truth, p)
            else forall q | a <= q < b :: !FinAt(tr, k, q, d)
  {
    p := 0;
    if a < b {
      var m: nat := b - 1;
      p := FirstFinOfSegments(tr, k, truth, a, m, d);
      if AdmittedOn(tr, m, k) {
        var front, events := TrueEvents(tr, k, truth, a, m), TrueEvents(tr, k, truth, a, b);
        OneMoreEvent(front, events[|front|], d);
        if FirstFin(front, d).None? && FinAt(tr, k, m, d) {
          p := m;
        }
      }
    }
  }

  /** `x` is the highest acknowledgement of side `d`, at call `q`. */
  ghost predicate Highest(tr: Trace, k: Key, truth: seq<Numbers>, a: nat, b: nat, d: Direction, x: Option<int>, q: nat)
    requires Within(tr, b) && b <= |truth|
  {
    && (x.Some? ==> a <= q < b && AckAt(tr, k, q, d) && truth[q].acknowledgement == x.value)
    && forall r | a <= r < b && AckAt(tr, k, r, d) :: x.Some? && truth[r].acknowledgement <= x.value
  }

  lemma HighestNext(tr: Trace, k: Key, truth: seq<Numbers>, a: nat, m: nat, b: nat, d: Direction,
                    x: Option<int>, q: nat) returns (y: Option<int>, q': nat)
    requires a <= m && b == m + 1 && Within(tr, b) && b <= |truth| && Highest(tr, k, truth, a, m, d, x, q)
    ensures Highest(tr, k, truth, a, b, d, y, q')
    ensures y == if AckAt(tr, k, m, d) && (x.None? || truth[m].acknowledgement >= x.value)
                 then Some(truth[m].acknowledgement) else x
  {
    if AckAt(tr, k, m, d) && (x.None? || truth[m].acknowledgement >= x.value) {
      y, q' := Some(truth[m].acknowledgement), m;
    } else {
      y, q' := x, q;
    }
  }

  /** The reference's acknowledgement of a side is the highest among its segments with ACK. */
  lemma {:induction false} MaxAckOfSegments(tr: Trace, k: Key, truth: seq<Numbers>, a: nat, b: nat, d: Direction)
    returns (q: nat)
    requires a <= b && Within(tr, b) && b <= |truth|
    ensures Highest(tr, k, truth, a, b, d, MaxAck(TrueEvents(tr, k, truth, a, b), d), q)
  {
    q := 0;
    if a < b {
      var m: nat := b - 1;
      q := MaxAckOfSegments(tr, k, truth, a, m, d);
      var front, events := TrueEvents(tr, k, truth, a, m), TrueEvents(tr, k, truth, a, b);
      var y;
      y, q := HighestNext(tr, k, truth, a, m, b, d, MaxAck(front, d), q);
      if AdmittedOn(tr, m, k) {
        OneMoreEvent(front, events[|front|], d);
      }
    }
  }

  lemma FirstFinIsUnique(tr: Trace, k: Key, a: nat, b: nat, d: Direction, p: nat, q: nat)
    requires Within(tr, b) && FirstFinAt(tr, k, a, b, d, p) && FirstFinAt(tr, k, a, b, d, q)
    ensures p == q
  {
  }

  lemma DoneBySegments(tr: Trace, k: Key, truth: seq<Numbers>, a: nat, b: nat, d: Direction)
    requires a <= b && Within(tr, b) && b <= |truth|
    ensures SideDone(tr, k, a, b, truth, d) <==>
            AtLeast(MaxAck(TrueEvents(tr, k, truth, a, b), d.Opposite()), FirstFin(TrueEvents(tr, k, truth, a, b), d))
  {
    var p := FirstFinOfSegments(tr, k, truth, a, b, d);
    var q := MaxAckOfSegments(tr, k, truth, a, b, d.Opposite());
    if SideDone(tr, k, a, b, truth, d) {
      var p': nat, q': nat :| FirstFinAt(tr, k, a, b, d, p') && a <= q' < b && AckAt(tr, k, q', d.Opposite())
                   && truth[q'].acknowledgement >= truth[p'].sequence + SegmentOf(tr.calls[p']).payload + 1;
      assert FinAt(tr, k, p', d);
      FirstFinIsUnique(tr, k, a, b, d, p, p');
    }
  }

  /** Both sides are done. */
  ghost predicate Done(tr: Trace, k: Key, a: nat, b: nat, truth: seq<Numbers>)
    requires Within(tr, b) && b <= |truth|
  {
    SideDone(tr, k, a, b, truth, In) && SideDone(tr, k, a, b, truth, Out)
  }

  /** The numbers fit the segments, and serial comparison is meaningful for those that are compared. */
  ghost predicate Fits(tr: Trace, k: Key, a: nat, b: nat, truth: seq<Numbers>)
    requires a <= b && Within(tr, b)
  {
    Behind(tr, k, a, b, truth) && ComparableRun(TrueEvents(tr, k, truth, a, b))
  }

  lemma ClosedByTruth(config: Config, tr: Trace, k: Key, i: nat, j: nat, c: nat, n: nat, m: nat, truth: seq<Numbers>)
    requires IsTrace(config, tr) && c < m <= n <= |tr.calls|
    requires OpenedAt(config, tr, k, i, n) && ConfirmedAt(tr, k, i, j, c, n) && Fits(tr, k, c, m, truth)
    ensures k in tr.tables[m].flows && (IsClosed(tr.tables[m].flows[k]) <==> Done(tr, k, c, m, truth))
    ensures tr.tables[m].flows[k].tracker == WireTracker(Reference(TrueEvents(tr, k, truth, c, m)))
  {
    var events := TrueEvents(tr, k, truth, c, m);
    TrackerFollows(config, tr, k, i, j, c, n, m);
    TrueEventsOnWire(tr, k, truth, c, m);
    TrackerRefinesReference(events);
    ClosedExactlyWhenAcked(events);
    DoneBySegments(tr, k, truth, c, m, In);
    DoneBySegments(tr, k, truth, c, m, Out);
  }

  lemma {:induction false} TrueEventsPrefix(tr: Trace, k: Key, truth: seq<Numbers>, a: nat, m: nat, b: nat)
    requires a <= m <= b && Within(tr, b) && b <= |truth|
    ensures TrueEvents(tr, k, truth, a, m) <= TrueEvents(tr, k, truth, a, b)
  {
    if m < b {
      TrueEventsPrefix(tr, k, truth, a, m, b - 1);
    }
  }

  lemma FitsEarlier(tr: Trace, k: Key, a: nat, m: nat, b: nat, truth: seq<Numbers>)
    requires a <= m <= b && Within(tr, b) && Fits(tr, k, a, b, truth)
    ensures Fits(tr, k, a, m, truth)
  {
    var all, some := TrueEvents(tr, k, truth, a, b), TrueEvents(tr, k, truth, a, m);
    TrueEventsPrefix(tr, k, truth, a, m, b);
    ComparablePrefix(all, |some|);
    assert all[..|some|] == some;
  }

  /** Closing by the segments, over whole runs: while serial comparison is meaningful, an established flow is closed
      exactly if each side has sent a FIN and the other side has acknowledged everything up to and including the first
      one, that is, its true sequence number, plus its data, plus one for the FIN itself; and the stored numbers are the
      true first FINs and highest acknowledgements modulo 2^32. */
  lemma FlowClosesWhenTrulyClosed(config: Config, tr: Trace, n: nat, k: Key, truth: seq<Numbers>)
    returns (i: nat, j: nat, c: nat)
    requires IsTrace(config, tr) && n <= |tr.calls| && EstablishedIn(tr.tables[n], k) && n <= |truth|
    ensures OpenedAt(config, tr, k, i, n) && ConfirmedAt(tr, k, i, j, c, n)
    ensures Fits(tr, k, c, n, truth) ==>
              && (tr.tables[n].flows[k].tracker.closedAt.Some? <==>
                    SideDone(tr, k, c, n, truth, In) && SideDone(tr, k, c, n, truth, Out))
              && tr.tables[n].flows[k].tracker == WireTracker(Reference(TrueEvents(tr, k, truth, c, n)))
  {
    i, j, c := FlowOrigin(config, tr, n, k);
    if Fits(tr, k, c, n, truth) {
      ClosedByTruth(config, tr, k, i, j, c, n, n, truth);
    }
  }

  lemma ClosingStep(config: Config, tr: Trace, p: nat, k: Key)
    requires IsTrace(config, tr) && p < |tr.calls| && Spares(config, tr, p, k)
    requires EstablishedIn(tr.tables[p + 1], k) && IsClosed(tr.tables[p + 1].flows[k])
    ensures k in tr.tables[p].flows
    ensures var f, g := tr.tables[p].flows[k], tr.tables[p + 1].flows[k];
            if IsClosed(f) then g.tracker.closedAt == f.tracker.closedAt
            else AdmittedOn(tr, p, k) && g.tracker.closedAt == Some(tr.calls[p].now)
  {
    assert Step(config, tr, p);
    ReachableConsistent(config, tr, p);
    FlowStep(config, tr.tables[p], tr.calls[p], k);
    if AdmittedOn(tr, p, k) {
      AdvanceConsistent(tr.tables[p].flows[k], SegmentOf(tr.calls[p]), tr.calls[p].direction, tr.calls[p].now);
    }
  }

  /** The flow was closed before call `p` already. */
  ghost predicate ClosedBefore(tr: Trace, k: Key, c: nat, p: nat)
    requires p < |tr.tables|
  {
    c < p && EstablishedIn(tr.tables[p], k) && IsClosed(tr.tables[p].flows[k])
  }

  lemma ClosingCall(config: Config, tr: Trace, k: Key, i: nat, j: nat, c: nat, n: nat, p: nat, m: nat,
                    truth: seq<Numbers>)
    requires IsTrace(config, tr) && c <= p < n <= |tr.calls| && m == p + 1
    requires OpenedAt(config, tr, k, i, n) && ConfirmedAt(tr, k, i, j, c, n) && Fits(tr, k, c, m, truth)
    requires EstablishedIn(tr.tables[m], k) && IsClosed(tr.tables[m].flows[k])
    ensures Fits(tr, k, c, p, truth)
    ensures if ClosedBefore(tr, k, c, p) then
              tr.tables[m].flows[k].tracker.closedAt == tr.tables[p].flows[k].tracker.closedAt
            else
              && AdmittedOn(tr, p, k) && tr.tables[m].flows[k].tracker.closedAt == Some(tr.calls[p].now)
              && Done(tr, k, c, m, truth) && !Done(tr, k, c, p, truth)
  {
    FitsEarlier(tr, k, c, p, m, truth);
    ClosedByTruth(config, tr, k, i, j, c, n, m, truth);
    assert Spares(config, tr, p, k);
    ClosingStep(config, tr, p, k);
    if p > c {
      assert EstablishedIn(tr.tables[p], k);
      ClosedByTruth(config, tr, k, i, j, c, n, p, truth);
    }
  }

  /** And it is marked closed with the time of the very call that made both sides done. */
  lemma {:induction false} ClosedAtTheLastAck(config: Config, tr: Trace, k: Key, i: nat, j: nat, c: nat, n: nat, m: nat,
                                              truth: seq<Numbers>) returns (p: nat, q: nat)
    requires IsTrace(config, tr) && c < m <= n <= |tr.calls|
    requires OpenedAt(config, tr, k, i, n) && ConfirmedAt(tr, k, i, j, c, n) && Fits(tr, k, c, m, truth)
    requires EstablishedIn(tr.tables[m], k) && IsClosed(tr.tables[m].flows[k])
    ensures c <= p < q <= m && q == p + 1 && AdmittedOn(tr, p, k)
    ensures tr.tables[m].flows[k].tracker.closedAt == Some(tr.calls[p].now)
    ensures Done(tr, k, c, q, truth) && !Done(tr, k, c, p, truth)
    decreases m
  {
    p, q := m - 1, m;
    ClosingCall(config, tr, k, i, j, c, n, p, m, truth);
    if ClosedBefore(tr, k, c, p) {
      p, q := ClosedAtTheLastAck(config, tr, k, i, j, c, n, p, truth);
    }
  }

  // ---- The same on the fields as they are sent ----

  /** Side `d` is done, told from the 32-bit fields alone: an acknowledgement from the other side lies 1 to 2^31 beyond
      the sequence number and the data of its first FIN. */
  ghost predicate SideDoneOnWire(tr: Trace, k: Key, a: nat, b: nat, d: Direction)
    requires Within(tr, b)
  {
    exists p: nat, q: nat ::
      && FirstFinAt(tr, k, a, b, d, p) && a <= q < b && AckAt(tr, k, q, d.Opposite())
      && 1 <= Beyond(SegmentOf(tr.calls[q]).acknowledgement, SegmentOf(tr.calls[p])) <= 0x8000_0000
  }

  /** How far, modulo 2^32, an acknowledgement lies beyond the sequence number and the data of a segment. */
  function Beyond(acknowledgement: u32, s: Segment): int {
    (acknowledgement - (s.sequence + s.payload)) % 0x1_0000_0000
  }

  /** Every acknowledgement is within half the space of the end of the other side's first FIN. */
  ghost predicate AcksNearFins(tr: Trace, k: Key, a: nat, b: nat, truth: seq<Numbers>)
    requires Within(tr, b) && b <= |truth|
  {
    forall p: nat, q: nat, d: Direction {:trigger FirstFinAt(tr, k, a, b, d, p), AckAt(tr, k, q, d.Opposite())} ::
      FirstFinAt(tr, k, a, b, d, p) && a <= q < b && AckAt(tr, k, q, d.Opposite()) ==>
        Near(truth[q].acknowledgement, FinEnd(tr, truth, p))
  }

  lemma CoversOnWire(ack: int, sequence: int, payload: nat)
    requires Near(ack, sequence + payload + 1)
    ensures ack >= sequence + payload + 1 <==>
            1 <= (ack % TWO32 - (sequence % TWO32 + payload)) % TWO32 <= HALF
  {
    var x := ack - (sequence + payload);
    var k := sequence / TWO32 - ack / TWO32;
    assert ack % TWO32 - (sequence % TWO32 + payload) == k * TWO32 + x;
    ModShift(k, TWO32, x);
    if x >= 0 { QuotientUnique(x, TWO32, 0, x); } else { QuotientUnique(x, TWO32, -1, x + TWO32); }
  }

  lemma DoneOnWire(tr: Trace, k: Key, a: nat, b: nat, truth: seq<Numbers>, d: Direction)
    requires Within(tr, b) && Behind(tr, k, a, b, truth) && AcksNearFins(tr, k, a, b, truth)
    ensures SideDone(tr, k, a, b, truth, d) <==> SideDoneOnWire(tr, k, a, b, d)
  {
    forall p: nat, q: nat | FirstFinAt(tr, k, a, b, d, p) && a <= q < b && AckAt(tr, k, q, d.Opposite())
      ensures truth[q].acknowledgement >= truth[p].sequence + SegmentOf(tr.calls[p]).payload + 1 <==>
              1 <= Beyond(SegmentOf(tr.calls[q]).acknowledgement, SegmentOf(tr.calls[p])) <= 0x8000_0000
    {
      assert FinAt(tr, k, p, d);
      CoversOnWire(truth[q].acknowledgement, truth[p].sequence, SegmentOf(tr.calls[p]).payload);
    }
  }

  /** Closing by the fields alone, over whole runs in which the acknowledgements stay within half the space of the
      FINs. */
  lemma ClosedExactlyOnWire(config: Config, tr: Trace, n: nat, k: Key, truth: seq<Numbers>)
    returns (i: nat, j: nat, c: nat)
    requires IsTrace(config, tr) && n <= |tr.calls| && EstablishedIn(tr.tables[n], k) && n <= |truth|
    ensures OpenedAt(config, tr, k, i, n) && ConfirmedAt(tr, k, i, j, c, n)
    ensures Fits(tr, k, c, n, truth) && AcksNearFins(tr, k, c, n, truth) ==>
              (tr.tables[n].flows[k].tracker.closedAt.Some? <==>
                 SideDoneOnWire(tr, k, c, n, In) && SideDoneOnWire(tr, k, c, n, Out))
  {
    i, j, c := FlowClosesWhenTrulyClosed(config, tr, n, k, truth);
    if Fits(tr, k, c, n, truth) && AcksNearFins(tr, k, c, n, truth) {
      DoneOnWire(tr, k, c, n, truth, In);
      DoneOnWire(tr, k, c, n, truth, Out);
    }
  }
}
