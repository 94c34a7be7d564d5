/** How many strangers may try to enroll at once, and how often. */
module EnrollmentAdmission {
  import opened Common

  const WINDOW_MS := 60_000.0
  const RESERVATION_MS := 10_000.0
  const MAX_ATTEMPTS := 32
  const MAX_STREAMS := 8

  /** `attempts`, `reservations` and `streams` are the engine's; `admitted` lists all admissions ever made. */
  datatype Gate = Gate(attempts: seq<real>, reservations: map<string, real>, streams: set<nat>, stopping: bool,
                       admitted: seq<real>, overfull: nat)

  datatype Event =
    | Knock(key: string, now: real)   // the firewall, for a key that is no configured peer
    | Connect(caller: string, id: nat) // the connection callback for such a key
    | End(stream: nat)                // an enrollment stream ends
    | Stop

  /** Attempts that left the window are forgotten, oldest first. */
  function Recent(attempts: seq<real>, now: real): seq<real> {
    if attempts != [] && now - attempts[0] >= WINDOW_MS then Recent(attempts[1..], now) else attempts
  }

  function Unexpired(reservations: map<string, real>, now: real): map<string, real> {
    map k | k in reservations && reservations[k] > now :: reservations[k]
  }

  function OnKnock(g: Gate, key: string, now: real): Gate {
    if g.stopping then g
    else
      var r := g.(reservations := Unexpired(g.reservations, now), attempts := Recent(g.attempts, now));
      if |r.attempts| >= MAX_ATTEMPTS || |r.streams| + |r.reservations| >= MAX_STREAMS || key in r.reservations then r
      else r.(attempts := r.attempts + [now], reservations := r.reservations[key := now + RESERVATION_MS],
              admitted := r.admitted + [now])
  }

  /** The reservation is used up; `overfull` counts the times `attachEnrollment` would still refuse for 8 streams. */
  function OnConnect(g: Gate, key: string, id: nat): Gate {
    var r := g.(reservations := g.reservations - {key});
    if key !in g.reservations || g.stopping then r
    else if |g.streams| >= MAX_STREAMS then r.(overfull := g.overfull + 1)
    else r.(streams := g.streams + {id})
  }

  function React(g: Gate, e: Event): Gate {
    match e
    case Knock(key, now) => OnKnock(g, key, now)
    case Connect(key, id) => OnConnect(g, key, id)
    case End(id) => g.(streams := g.streams - {id})
    case Stop => g.(stopping := true)
  }

  const Open := Gate([], map[], {}, false, [], 0)

  ghost predicate Sorted(s: seq<real>) {
    forall i, j | 0 <= i < j < |s| :: s[i] <= s[j]
  }

  /** Admissions 32 places apart are a window apart. */
  ghost predicate Spaced(s: seq<real>) {
    forall i | 0 <= i && i + MAX_ATTEMPTS < |s| :: s[i + MAX_ATTEMPTS] - s[i] >= WINDOW_MS
  }

  ghost predicate Bounded(g: Gate) {
    |g.streams| + |g.reservations| <= MAX_STREAMS && g.overfull == 0
  }

  /** `attempts` is the end of the history, and what it forgot is out of the window. */
  ghost predicate History(admitted: seq<real>, attempts: seq<real>, clock: real) {
    && |attempts| <= MAX_ATTEMPTS && |attempts| <= |admitted|
    && attempts == admitted[|admitted| - |attempts|..]
    && (forall i | 0 <= i < |admitted| :: admitted[i] <= clock)
    && Forgotten(admitted, |attempts|, clock)
    && Sorted(admitted) && Spaced(admitted)
  }

  ghost predicate Timely(g: Gate, clock: real) {
    History(g.admitted, g.attempts, clock)
  }

  lemma {:induction false} RecentIsSuffix(attempts: seq<real>, now: real)
    ensures |Recent(attempts, now)| <= |attempts|
    ensures Recent(attempts, now) == attempts[|attempts| - |Recent(attempts, now)|..]
    ensures forall i | 0 <= i < |attempts| - |Recent(attempts, now)| :: now - attempts[i] >= WINDOW_MS
  {
    if attempts != [] && now - attempts[0] >= WINDOW_MS {
      RecentIsSuffix(attempts[1..], now);
    }
  }

  lemma MapSubsetSize(a: map<string, real>, b: map<string, real>)
    requires a.Keys <= b.Keys
    ensures |a| <= |b|
    ensures forall k | k in b && k !in a :: |a| < |b|
  {
    SubsetCardinality(a.Keys, b.Keys);
    assert |a| == |a.Keys| && |b| == |b.Keys|;
  }

  lemma KnockBounded(g: Gate, key: string, now: real)
    requires Bounded(g)
    ensures Bounded(OnKnock(g, key, now))
  {
    var r := Unexpired(g.reservations, now);
    MapSubsetSize(r, g.reservations);
    assert key !in r ==> |r[key := now + RESERVATION_MS]| == |r| + 1;
  }

  lemma ConnectBounded(g: Gate, key: string, id: nat)
    requires Bounded(g)
    ensures Bounded(OnConnect(g, key, id))
  {
    MapSubsetSize(g.reservations - {key}, g.reservations);
  }

  lemma ReactBounded(g: Gate, e: Event)
    requires Bounded(g)
    ensures Bounded(React(g, e))
  {
    match e
    case Knock(key, now) => KnockBounded(g, key, now);
    case Connect(key, id) => ConnectBounded(g, key, id);
    case End(id) => SubsetCardinality(g.streams - {id}, g.streams);
    case Stop =>
  }

  /** Everything but the last `kept` admissions is out of the window. */
  ghost predicate Forgotten(a: seq<real>, kept: nat, now: real) {
    kept <= |a| && forall i | 0 <= i < |a| - kept :: now - a[i] >= WINDOW_MS
  }

  lemma RecentForgets(a: seq<real>, attempts: seq<real>, clock: real, now: real)
    requires Forgotten(a, |attempts|, clock) && attempts == a[|a| - |attempts|..] && clock <= now
    ensures var recent := Recent(attempts, now);
            |recent| <= |attempts| && Forgotten(a, |recent|, now) && recent == a[|a| - |recent|..]
  {
    RecentIsSuffix(attempts, now);
    var recent := Recent(attempts, now);
    var start := |a| - |attempts|;
    forall i | 0 <= i < |a| - |recent| ensures now - a[i] >= WINDOW_MS {
      if i >= start {
        assert attempts[i - start] == a[i];
      }
    }
  }

  lemma AppendSpaced(a: seq<real>, kept: nat, now: real)
    requires Sorted(a) && Spaced(a) && Forgotten(a, kept, now) && kept < MAX_ATTEMPTS
    requires forall i | 0 <= i < |a| :: a[i] <= now
    ensures Sorted(a + [now]) && Spaced(a + [now]) && Forgotten(a + [now], kept + 1, now)
  {
  }

  lemma ForgetKeepsHistory(admitted: seq<real>, attempts: seq<real>, clock: real, now: real)
    requires History(admitted, attempts, clock) && clock <= now
    ensures History(admitted, Recent(attempts, now), now)
  {
    RecentForgets(admitted, attempts, clock, now);
  }

  lemma AdmitKeepsHistory(admitted: seq<real>, attempts: seq<real>, now: real)
    requires History(admitted, attempts, now) && |attempts| < MAX_ATTEMPTS
    ensures History(admitted + [now], attempts + [now], now)
  {
    AppendSpaced(admitted, |attempts|, now);
    assert attempts + [now] == (admitted + [now])[|admitted| - |attempts|..];
  }

  lemma HistoryLater(admitted: seq<real>, attempts: seq<real>, clock: real, now: real)
    requires History(admitted, attempts, clock) && clock <= now
    ensures History(admitted, attempts, now)
  {
  }

  lemma KnockTimely(g: Gate, key: string, now: real, clock: real)
    requires Timely(g, clock) && clock <= now
    ensures Timely(OnKnock(g, key, now), now)
  {
    HistoryLater(g.admitted, g.attempts, clock, now);
    ForgetKeepsHistory(g.admitted, g.attempts, clock, now);
    if |Recent(g.attempts, now)| < MAX_ATTEMPTS {
      AdmitKeepsHistory(g.admitted, Recent(g.attempts, now), now);
    }
  }

  datatype Run = Run(events: seq<Event>, gates: seq<Gate>)

  ghost predicate IsRun(r: Run) {
    && |r.gates| == |r.events| + 1 && r.gates[0] == Open
    && forall n | 0 <= n < |r.events| :: r.gates[n + 1] == React(r.gates[n], r.events[n])
  }

  /** The time of the last knock among the first `n` events; `start` before the first. */
  function Clock(r: Run, start: real, n: nat): real
    requires n <= |r.events|
  {
    if n == 0 then start else if r.events[n - 1].Knock? then r.events[n - 1].now else Clock(r, start, n - 1)
  }

  ghost predicate Monotone(r: Run, start: real) {
    forall n | 0 <= n < |r.events| && r.events[n].Knock? :: Clock(r, start, n) <= r.events[n].now
  }

  /** Live enrollment streams and reservations together never exceed 8, whatever the clock does; so the second check for
      8 streams, in `attachEnrollment`, never refuses a reserved stream. */
  lemma {:induction false} NeverOverfull(r: Run, n: nat)
    requires IsRun(r) && n <= |r.events|
    ensures |r.gates[n].streams| + |r.gates[n].reservations| <= 8 && r.gates[n].overfull == 0
  {
    if n > 0 {
      NeverOverfull(r, n - 1);
      ReactBounded(r.gates[n - 1], r.events[n - 1]);
    }
  }

  lemma TimelyNext(r: Run, start: real, m: nat)
    requires IsRun(r) && Monotone(r, start) && m < |r.events| && Timely(r.gates[m], Clock(r, start, m))
    ensures Timely(r.gates[m + 1], Clock(r, start, m + 1))
  {
    var v := r.events[m];
    if v.Knock? {
      KnockTimely(r.gates[m], v.key, v.now, Clock(r, start, m));
    }
  }

  lemma {:induction false} ReachableTimely(r: Run, start: real, n: nat)
    requires IsRun(r) && Monotone(r, start) && n <= |r.events|
    ensures Timely(r.gates[n], Clock(r, start, n))
  {
    if n > 0 {
      var m: nat := n - 1;
      ReachableTimely(r, start, m);
      TimelyNext(r, start, m);
    }
  }

  /** Under a clock that never runs backwards, any two admissions 32 places apart in the whole run are at least 60 s
      apart. */
  lemma AdmissionsAreSpaced(r: Run, start: real, n: nat, i: nat)
    requires IsRun(r) && Monotone(r, start) && n <= |r.events| && i + 32 < |r.gates[n].admitted|
    ensures r.gates[n].admitted[i + 32] - r.gates[n].admitted[i] >= 60_000.0
  {
    ReachableTimely(r, start, n);
  }

  // ---- Who is let in ----

  /** The admissions of the last minute, by their places. */
  ghost function LastMinute(admitted: seq<real>, now: real): set<int> {
    set i | 0 <= i < |admitted| && now - admitted[i] < 60_000.0
  }

  /** The keys that hold a reservation that has not expired. */
  ghost function Waiting(reservations: map<string, real>, now: real): set<string> {
    set k | k in reservations && reservations[k] > now
  }

  lemma {:induction false} IntervalSize(x: set<int>, a: int, b: int)
    requires a <= b && forall i :: i in x <==> a <= i < b
    ensures |x| == b - a
    decreases b - a
  {
    if a < b {
      IntervalSize(x - {b - 1}, a, b - 1);
    } else {
      assert forall i :: i in x ==> i in {};
      assert x <= {};
    }
  }

  lemma {:induction false} RecentStartsInWindow(attempts: seq<real>, now: real)
    ensures Recent(attempts, now) != [] ==> now - Recent(attempts, now)[0] < WINDOW_MS
  {
    if attempts != [] && now - attempts[0] >= WINDOW_MS {
      RecentStartsInWindow(attempts[1..], now);
    }
  }

  lemma RecentCounts(admitted: seq<real>, attempts: seq<real>, clock: real, now: real)
    requires History(admitted, attempts, clock) && clock <= now
    ensures |Recent(attempts, now)| == |LastMinute(admitted, now)|
  {
    ForgetKeepsHistory(admitted, attempts, clock, now);
    RecentStartsInWindow(attempts, now);
    var recent := Recent(attempts, now);
    var start := |admitted| - |recent|;
    assert recent == admitted[start..];
    forall i ensures i in LastMinute(admitted, now) <==> start <= i < |admitted| {
      if start <= i < |admitted| {
        assert admitted[start] <= admitted[i] && admitted[start] == recent[0];
      }
    }
    IntervalSize(LastMinute(admitted, now), start, |admitted|);
  }

  lemma WaitingCounts(reservations: map<string, real>, now: real)
    ensures |Unexpired(reservations, now)| == |Waiting(reservations, now)|
  {
    assert Unexpired(reservations, now).Keys == Waiting(reservations, now);
    assert |Unexpired(reservations, now)| == |Unexpired(reservations, now).Keys|;
  }

  /** Under a clock that never runs backwards, a stranger's knock is admitted exactly if the engine runs, fewer than 32
      were admitted in the last minute, live streams and waiting reservations are fewer than 8, and none of them is this
      stranger's own. */
  lemma KnockAdmittedExactly(r: Run, start: real, n: nat)
    requires IsRun(r) && Monotone(r, start) && n < |r.events| && r.events[n].Knock?
    ensures var g, v, admitted := r.gates[n], r.events[n], r.gates[n + 1].admitted;
            && (admitted == g.admitted + [v.now] <==>
                  && !g.stopping && |LastMinute(g.admitted, v.now)| < 32
                  && |g.streams| + |Waiting(g.reservations, v.now)| < 8 && v.key !in Waiting(g.reservations, v.now))
            && (admitted == g.admitted + [v.now] || admitted == g.admitted)
  {
    var g, v := r.gates[n], r.events[n];
    ReachableTimely(r, start, n);
    RecentCounts(g.admitted, g.attempts, Clock(r, start, n), v.now);
    WaitingCounts(g.reservations, v.now);
  }

  /** Event `m` admitted a knock of this stranger. */
  ghost predicate AdmittedAt(r: Run, m: nat, key: string)
    requires m < |r.events| && |r.gates| == |r.events| + 1
  {
    r.events[m].Knock? && r.events[m].key == key && |r.gates[m + 1].admitted| > |r.gates[m].admitted|
  }

  /** The event ends a reservation of this stranger that lasts until `expiry`: the stranger connects, or somebody knocks
      when it is over. */
  predicate Ends(g: Gate, v: Event, key: string, expiry: real) {
    (v.Connect? && v.caller == key) || (v.Knock? && !g.stopping && v.now >= expiry)
  }

  /** Event `m` made a reservation for ten seconds, and it is still there before event `n`. */
  ghost predicate Reserved(r: Run, key: string, m: nat, n: nat)
    requires n <= |r.events| && |r.gates| == |r.events| + 1
  {
    m < n && AdmittedAt(r, m, key)
    && forall l | m < l < n :: !Ends(r.gates[l], r.events[l], key, r.events[m].now + 10_000.0)
  }

  lemma ReservationStep(g: Gate, v: Event, key: string)
    ensures var h := React(g, v);
            && (key in h.reservations <==>
                  || (v.Knock? && v.key == key && |h.admitted| > |g.admitted|)
                  || (key in g.reservations && !Ends(g, v, key, g.reservations[key])))
            && (key in h.reservations ==>
                  h.reservations[key] == if v.Knock? && v.key == key && |h.admitted| > |g.admitted|
                                         then v.now + 10_000.0 else g.reservations[key])
            && (v.Knock? && v.key == key && |h.admitted| > |g.admitted| && key in g.reservations ==>
                  Ends(g, v, key, g.reservations[key]))
  {
  }

  lemma ReservedNext(r: Run, key: string, m: nat, n: nat, k: nat)
    requires n == k + 1 <= |r.events| && |r.gates| == |r.events| + 1
    ensures Reserved(r, key, m, n) <==>
              || (m == k && AdmittedAt(r, k, key))
              || (Reserved(r, key, m, k) && !Ends(r.gates[k], r.events[k], key, r.events[m].now + 10_000.0))
  {
  }

  lemma ReservationKnown(r: Run, key: string, k: nat, n: nat, l: nat)
    requires n == k + 1 <= |r.events| && |r.gates| == |r.events| + 1 && r.gates[n] == React(r.gates[k], r.events[k])
    requires Reserved(r, key, l, k) ==>
               key in r.gates[k].reservations && r.gates[k].reservations[key] == r.events[l].now + 10_000.0
    ensures Reserved(r, key, l, n) ==>
              key in r.gates[n].reservations && r.gates[n].reservations[key] == r.events[l].now + 10_000.0
  {
    ReservedNext(r, key, l, n, k);
    ReservationStep(r.gates[k], r.events[k], key);
  }

  /** A reservation is there exactly if an admitted knock of that stranger made it, and it has neither been used nor
      purged since; it lasts ten seconds from that knock. */
  lemma {:induction false} ReservationsExactly(r: Run, key: string, n: nat) returns (m: nat)
    requires IsRun(r) && n <= |r.events|
    ensures key in r.gates[n].reservations ==> Reserved(r, key, m, n)
    ensures forall l: nat | Reserved(r, key, l, n) ::
              key in r.gates[n].reservations && r.gates[n].reservations[key] == r.events[l].now + 10_000.0
  {
    m := 0;
    if n > 0 {
      var k: nat := n - 1;
      m := ReservationsExactly(r, key, k);
      assert r.gates[n] == React(r.gates[k], r.events[k]);
      ReservationStep(r.gates[k], r.events[k], key);
      if AdmittedAt(r, k, key) {
        m := k;
      }
      ReservedNext(r, key, m, n, k);
      forall l: nat | Reserved(r, key, l, n)
        ensures key in r.gates[n].reservations && r.gates[n].reservations[key] == r.events[l].now + 10_000.0
      {
        ReservationKnown(r, key, k, n, l);
      }
    }
  }

  /** A stranger's stream is taken on exactly if the stranger holds a reservation and the engine runs; either way the
      reservation is used up. */
  lemma StreamsExactly(r: Run, n: nat) returns (m: nat)
    requires IsRun(r) && n < |r.events| && r.events[n].Connect? && r.events[n].id !in r.gates[n].streams
    ensures var g, v := r.gates[n], r.events[n];
            && (v.id in r.gates[n + 1].streams <==> v.caller in g.reservations && !g.stopping)
            && (v.caller in g.reservations ==> Reserved(r, v.caller, m, n))
            && v.caller !in r.gates[n + 1].reservations
  {
    m := ReservationsExactly(r, r.events[n].caller, n);
    NeverOverfull(r, n);
    NeverOverfull(r, n + 1);
  }

  /** Event `m` takes on the stream `id`. */
  ghost predicate TakenOn(r: Run, m: nat, id: nat)
    requires m < |r.events| && |r.gates| == |r.events| + 1
  {
    && r.events[m].Connect? && r.events[m].id == id && r.events[m].caller in r.gates[m].reservations
    && !r.gates[m].stopping
  }

  /** The stream `id` was taken on by event `m` and has not ended before event `n`. */
  ghost predicate LiveSince(r: Run, id: nat, m: nat, n: nat)
    requires n <= |r.events| && |r.gates| == |r.events| + 1
  {
    m < n && TakenOn(r, m, id) && forall l | m < l < n :: r.events[l] != End(id)
  }

  lemma LiveNext(r: Run, id: nat, k: nat, n: nat, m: nat)
    requires n == k + 1 <= |r.events| && |r.gates| == |r.events| + 1
    ensures LiveSince(r, id, m, n) <==>
              (m == k && TakenOn(r, k, id)) || (LiveSince(r, id, m, k) && r.events[k] != End(id))
  {
  }

  lemma StreamStep(r: Run, id: nat, k: nat, n: nat)
    requires IsRun(r) && n == k + 1 <= |r.events|
    ensures id in r.gates[n].streams <==>
              TakenOn(r, k, id) || (id in r.gates[k].streams && r.events[k] != End(id))
  {
    assert r.gates[n] == React(r.gates[k], r.events[k]);
    NeverOverfull(r, k);
    NeverOverfull(r, n);
  }

  /** A stream counts as live exactly from when it was taken on until it ends. */
  lemma {:induction false} LiveStreamsExactly(r: Run, id: nat, n: nat)
    requires IsRun(r) && n <= |r.events|
    ensures id in r.gates[n].streams <==> exists m: nat :: LiveSince(r, id, m, n)
  {
    if n > 0 {
      var k: nat := n - 1;
      LiveStreamsExactly(r, id, k);
      StreamStep(r, id, k, n);
      forall m: nat ensures LiveSince(r, id, m, n) <==>
                              (m == k && TakenOn(r, k, id)) || (LiveSince(r, id, m, k) && r.events[k] != End(id))
      {
        LiveNext(r, id, k, n, m);
      }
      assert TakenOn(r, k, id) ==> LiveSince(r, id, k, n);
    }
  }

  /** The gate's variables, as the firewall and the connection callback update them. */
  class AdmissionGate {
    var attempts: seq<real>
    var reservations: map<string, real>
    var streams: set<nat>
    var stopping: bool
    ghost var admitted: seq<real>
    ghost var overfull: nat

    ghost function View(): Gate
      reads this
    {
      Gate(attempts, reservations, streams, stopping, admitted, overfull)
    }

    constructor ()
      ensures View() == Open
    {
      attempts, reservations, streams, stopping, admitted, overfull := [], map[], {}, false, [], 0;
    }

    method PurgeReservations(now: real)
      modifies this`reservations
      ensures reservations == Unexpired(old(reservations), now)
    {
      var todo := reservations.Keys;
      while todo != {}
        invariant todo <= reservations.Keys && reservations.Keys <= old(reservations).Keys
        invariant forall k | k in old(reservations) ::
                    if k in todo || old(reservations)[k] > now
                    then k in reservations && reservations[k] == old(reservations)[k] else k !in reservations
      {
        var reserved :| reserved in todo;
        todo := todo - {reserved};
        if reservations[reserved] <= now {
          reservations := reservations - {reserved};
        }
      }
    }

    /** The enrollment branch of `firewall`; the result says whether the connection is refused. */
    method Firewall(key: string, now: real) returns (refused: bool)
      modifies this
      ensures View() == OnKnock(old(View()), key, now)
      ensures refused <==> admitted == old(admitted)
    {
      if stopping { return true; }
      PurgeReservations(now);
      while |attempts| > 0 && now - attempts[0] >= WINDOW_MS
        invariant Recent(attempts, now) == Recent(old(attempts), now)
        invariant reservations == Unexpired(old(reservations), now) && !stopping
        invariant streams == old(streams) && admitted == old(admitted) && overfull == old(overfull)
        decreases |attempts|
      {
        attempts := attempts[1..];
      }
      if |attempts| >= MAX_ATTEMPTS || |streams| + |reservations| >= MAX_STREAMS || key in reservations { return true; }
      attempts := attempts + [now];
      reservations := reservations[key := now + RESERVATION_MS];
      admitted := admitted + [now];
      return false;
    }

    /** The connection callback with `attachEnrollment`; the result says whether the stream is kept. */
    method Connected(key: string, id: nat) returns (kept: bool)
      modifies this
      ensures View() == OnConnect(old(View()), key, id)
      ensures kept ==> id in streams
    {
      var reserved := key in reservations;
      reservations := reservations - {key};
      if !reserved || stopping { return false; }
      if |streams| >= MAX_STREAMS {
        overfull := overfull + 1;
        return false;
      }
      streams := streams + {id};
      return true;
    }

    method Ended(id: nat)
      modifies this`streams
      ensures View() == React(old(View()), End(id))
    {
      streams := streams - {id};
    }
  }
}
