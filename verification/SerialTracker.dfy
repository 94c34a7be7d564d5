/** Detecting that both directions of a TCP connection are finished and acknowledged, in 32-bit serial arithmetic. */
module SerialTracker {
  import opened Common

  const HALF: int := 0x8000_0000

  /** `x | 0` */
  function ToInt32(x: int): int {
    var w := x % TWO32;
    if w < HALF then w else w - TWO32
  }

  /** `reaches(value, target)` */
  predicate Reaches(value: int, target: int) {
    ToInt32(value - target) >= 0
  }

  /** What a packet of an established flow tells the tracker: its acknowledgement and the end of its FIN, if it has
      them. */
  datatype Event = Event(direction: Direction, ack: Option<int>, fin: Option<int>, time: int)

  datatype Tracker = Tracker(finIn: Option<int>, finOut: Option<int>, ackIn: Option<int>, ackOut: Option<int>,
                             closedAt: Option<int>)

  const Untouched := Tracker(None, None, None, None, None)

  function NewAck(previous: Option<int>, ack: Option<int>): Option<int> {
    if ack.Some? && (previous.None? || Reaches(ack.value, previous.value)) then ack else previous
  }

  function NewFin(previous: Option<int>, fin: Option<int>): Option<int> {
    if previous.None? then fin else previous
  }

  predicate BothAcked(t: Tracker) {
    && t.finIn.Some? && t.finOut.Some?
    && t.ackOut.Some? && Reaches(t.ackOut.value, t.finIn.value)
    && t.ackIn.Some? && Reaches(t.ackIn.value, t.finOut.value)
  }

  /** One packet of an established flow. */
  function Track(t: Tracker, e: Event): Tracker {
    var t1 := if e.direction.In?
              then t.(ackIn := NewAck(t.ackIn, e.ack), finIn := NewFin(t.finIn, e.fin))
              else t.(ackOut := NewAck(t.ackOut, e.ack), finOut := NewFin(t.finOut, e.fin));
    if t.closedAt.None? && BothAcked(t1) then t1.(closedAt := Some(e.time)) else t1
  }

  function TrackAll(t: Tracker, events: seq<Event>): Tracker {
    if events == [] then t else Track(TrackAll(t, events[..|events| - 1]), events[|events| - 1])
  }

  // ---- The reference: true, unbounded sequence values and no stepwise state ----

  /** The highest acknowledgement seen in a direction. */
  function MaxAck(events: seq<Event>, d: Direction): Option<int> {
    if events == [] then None
    else
      var m, e := MaxAck(events[..|events| - 1], d), events[|events| - 1];
      if e.direction == d && e.ack.Some? && (m.None? || e.ack.value >= m.value) then e.ack else m
  }

  /** The end of the first FIN seen in a direction. */
  function FirstFin(events: seq<Event>, d: Direction): Option<int> {
    if events == [] then None
    else
      var f, e := FirstFin(events[..|events| - 1], d), events[|events| - 1];
      if f.None? && e.direction == d then e.fin else f
  }

  predicate AtLeast(a: Option<int>, b: Option<int>) {
    a.Some? && b.Some? && a.value >= b.value
  }

  /** Each side's FIN is covered by the other side's highest acknowledgement. */
  predicate FullyClosed(events: seq<Event>) {
    AtLeast(MaxAck(events, Out), FirstFin(events, In)) && AtLeast(MaxAck(events, In), FirstFin(events, Out))
  }

  /** The time of the first packet after which the connection is fully closed. */
  function ClosingTime(events: seq<Event>): Option<int> {
    if events == [] then None
    else
      var before := ClosingTime(events[..|events| - 1]);
      if before.None? && FullyClosed(events) then Some(events[|events| - 1].time) else before
  }

  function Reference(events: seq<Event>): Tracker {
    Tracker(FirstFin(events, In), FirstFin(events, Out), MaxAck(events, In), MaxAck(events, Out), ClosingTime(events))
  }

  lemma {:induction false} MaxAckIsMaximum(events: seq<Event>, d: Direction)
    ensures forall i | 0 <= i < |events| && events[i].direction == d && events[i].ack.Some? ::
              AtLeast(MaxAck(events, d), events[i].ack)
    ensures MaxAck(events, d).Some? ==>
            exists i :: 0 <= i < |events| && events[i].direction == d && events[i].ack == MaxAck(events, d)
  {
    if events != [] {
      var front := events[..|events| - 1];
      MaxAckIsMaximum(front, d);
      if MaxAck(front, d).Some? && MaxAck(events, d) == MaxAck(front, d) {
        var i :| 0 <= i < |front| && front[i].direction == d && front[i].ack == MaxAck(front, d);
        assert events[i] == front[i];
      }
    }
  }

  /** Once fully closed, always fully closed; so the closing time is defined exactly then. */
  lemma {:induction false} ClosedExactlyWhenAcked(events: seq<Event>)
    ensures ClosingTime(events).Some? <==> FullyClosed(events)
  {
    if events != [] {
      ClosedExactlyWhenAcked(events[..|events| - 1]);
    }
  }

  // ---- Refinement ----

  /** Serial comparison is meaningful within half the sequence space. */
  ghost predicate Near(a: int, b: int) {
    -HALF <= a - b < HALF
  }

  lemma ReachesWithinHalfSpace(a: int, b: int)
    ensures Reaches(a % TWO32, b % TWO32) <==> (a - b) % TWO32 < HALF
    ensures Near(a, b) ==> (Reaches(a % TWO32, b % TWO32) <==> a >= b)
  {
    var k := a / TWO32 - b / TWO32;
    assert a - b == k * TWO32 + (a % TWO32 - b % TWO32);
    ModShift(k, TWO32, a % TWO32 - b % TWO32);
  }

  function Low(x: Option<int>): Option<int> {
    if x.Some? then Some(x.value % TWO32) else None
  }

  /** The event as the packet carries it: sequence values modulo 2^32. */
  function Wire(e: Event): Event {
    e.(ack := Low(e.ack), fin := Low(e.fin))
  }

  function WireAll(events: seq<Event>): (w: seq<Event>)
    ensures |w| == |events|
  {
    seq(|events|, i requires 0 <= i < |events| => Wire(events[i]))
  }

  function WireTracker(t: Tracker): Tracker {
    Tracker(Low(t.finIn), Low(t.finOut), Low(t.ackIn), Low(t.ackOut), t.closedAt)
  }

  ghost predicate NearIfKnown(a: Option<int>, b: Option<int>) {
    a.Some? && b.Some? ==> Near(a.value, b.value)
  }

  /** The pairs of true values that the last packet makes the tracker compare are within half the space of each
      other. */
  ghost predicate Comparable(events: seq<Event>)
    requires events != []
  {
    var before, e, after := Reference(events[..|events| - 1]), events[|events| - 1], Reference(events);
    && NearIfKnown(e.ack, if e.direction.In? then before.ackIn else before.ackOut)
    && (before.closedAt.None? && after.finOut.Some? ==> NearIfKnown(after.ackOut, after.finIn))
    && (before.closedAt.None? && AtLeast(after.ackOut, after.finIn) ==> NearIfKnown(after.ackIn, after.finOut))
  }

  ghost predicate ComparableRun(events: seq<Event>) {
    forall n | 0 < n <= |events| :: Comparable(events[..n])
  }

  lemma ComparablePrefix(events: seq<Event>, n: nat)
    requires ComparableRun(events) && n <= |events|
    ensures ComparableRun(events[..n])
  {
    forall m | 0 < m <= n ensures Comparable(events[..n][..m]) {
      assert events[..n][..m] == events[..m];
    }
  }

  lemma NewAckRefines(previous: Option<int>, ack: Option<int>)
    requires NearIfKnown(ack, previous)
    ensures NewAck(Low(previous), Low(ack)) ==
            Low(if ack.Some? && (previous.None? || ack.value >= previous.value) then ack else previous)
  {
    if ack.Some? && previous.Some? {
      ReachesWithinHalfSpace(ack.value, previous.value);
    }
  }

  lemma BothAckedRefines(t: Tracker)
    requires t.finOut.Some? ==> NearIfKnown(t.ackOut, t.finIn)
    requires AtLeast(t.ackOut, t.finIn) ==> NearIfKnown(t.ackIn, t.finOut)
    ensures BothAcked(WireTracker(t)) <==> AtLeast(t.ackOut, t.finIn) && AtLeast(t.ackIn, t.finOut)
  {
    if t.finIn.Some? && t.finOut.Some? && t.ackOut.Some? {
      ReachesWithinHalfSpace(t.ackOut.value, t.finIn.value);
      if AtLeast(t.ackOut, t.finIn) && t.ackIn.Some? {
        ReachesWithinHalfSpace(t.ackIn.value, t.finOut.value);
      }
    }
  }

  /** One packet: the stored tracker follows the reference. */
  lemma TrackRefines(events: seq<Event>)
    requires events != [] && Comparable(events)
    ensures Track(WireTracker(Reference(events[..|events| - 1])), Wire(events[|events| - 1]))
            == WireTracker(Reference(events))
  {
    var before, e := Reference(events[..|events| - 1]), events[|events| - 1];
    NewAckRefines(if e.direction.In? then before.ackIn else before.ackOut, e.ack);
    ClosedExactlyWhenAcked(events[..|events| - 1]);
    if before.closedAt.None? {
      BothAckedRefines(Reference(events).(closedAt := None));
    }
  }

  /** Across any number of wraps, the stored acknowledgements are the true running maxima modulo 2^32, the stored FINs
      the true first FINs, and the flow is marked closed at the very packet that truly closes it. */
  lemma {:induction false} TrackerRefinesReference(events: seq<Event>)
    requires ComparableRun(events)
    ensures TrackAll(Untouched, WireAll(events)) == WireTracker(Reference(events))
    decreases |events|
  {
    if events != [] {
      var front := events[..|events| - 1];
      ComparablePrefix(events, |events| - 1);
      TrackerRefinesReference(front);
      assert WireAll(events)[..|events| - 1] == WireAll(front);
      assert events[..|events|] == events;
      TrackRefines(events);
    }
  }

  /** The half-space bound cannot be relaxed: a jump of exactly 2^31 is taken for an old acknowledgement. */
  lemma HalfSpaceIsTight()
    ensures var events := [Event(In, Some(0), None, 0), Event(In, Some(HALF), None, 0)];
            !Near(HALF, 0) && TrackAll(Untouched, WireAll(events)) != WireTracker(Reference(events))
  {
    var events := [Event(In, Some(0), None, 0), Event(In, Some(HALF), None, 0)];
    var w := WireAll(events);
    assert w[..1] == [Event(In, Some(0), None, 0)] && w[..1][..0] == [];
    assert TrackAll(Untouched, w[..1]) == Untouched.(ackIn := Some(0));
    assert TrackAll(Untouched, w).ackIn == Some(0);
    assert events[..1] == [Event(In, Some(0), None, 0)] && events[..1][..0] == [];
    assert MaxAck(events[..1], In) == Some(0);
    assert MaxAck(events, In) == Some(HALF);
  }
}
