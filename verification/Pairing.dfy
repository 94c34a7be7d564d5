/** One pairing attempt, end to end: the dialer, its stream, the receiver's single answer, and the store behind it. */
module Pairing {
  import opened Common
  import opened Addresses
  import opened ReceiverStore
  import opened ReceiverPlans
  import opened ReceiverRuns
  import opened ReceiverGenerations
  import opened Invitations

  // ---- The dialer ----

  /** A frame from the receiver, as its text parses; `Garbled` is any frame that is none of the others. */
  datatype Reply =
    | Greeting
    | Accepted(address: string, receiverAddress: string, receiverKey: string)
    | Refused(reason: Rejection)
    | UnusableReply
    | UnknownReply
    | Garbled

  datatype PairFailure = UnusableInvitation | Unavailable | UnknownOutcome | Denied(reason: Rejection)

  datatype Outcome =
    | Paired(address: string, receiverAddress: string, receiverKey: string)
    | PairError(reason: PairFailure)

  /** `invitation` is None when its text did not parse; `outcome` is set once, by the first `finish`. */
  datatype Dialer = Dialer(invitation: Option<Invite>, submitted: bool, outcome: Option<Outcome>)

  function Dial(text: string): Dialer {
    var invitation := ParseInvitation(text);
    Dialer(invitation, false, if invitation.Some? then None else Some(PairError(UnusableInvitation)))
  }

  function Finish(d: Dialer, o: Outcome): Dialer {
    if d.outcome.Some? then d else d.(outcome := Some(o))
  }

  /** The connection is gone, or time is up. */
  function Cut(d: Dialer): Dialer {
    Finish(d, PairError(if d.submitted then UnknownOutcome else Unavailable))
  }

  predicate Sends(d: Dialer, remoteKey: string) {
    d.invitation.Some? && d.outcome.None? && remoteKey == d.invitation.value.receiverKey
  }

  function OnConnected(d: Dialer, remoteKey: string): Dialer {
    if Sends(d, remoteKey) then d.(submitted := true) else Finish(d, PairError(Unavailable))
  }

  /** `parsePeerConfig` accepts the two addresses. */
  predicate ConfigParses(address: string, receiverAddress: string) {
    Ipv4(address).Some? && Ipv4(receiverAddress).Some? && address != receiverAddress
  }

  /** What a frame settles; None for the greeting, which settles nothing. */
  function Judgement(receiverKey: string, reply: Reply): Option<Outcome> {
    match reply
    case Greeting => None
    case UnusableReply => Some(PairError(UnusableInvitation))
    case Refused(reason) => Some(PairError(Denied(reason)))
    case Accepted(address, receiverAddress, key) =>
      if key == receiverKey && ConfigParses(address, receiverAddress) then Some(Paired(address, receiverAddress, key))
      else Some(PairError(UnknownOutcome))
    case _ => Some(PairError(UnknownOutcome))
  }

  function OnReply(d: Dialer, reply: Reply): Dialer
    requires d.invitation.Some?
  {
    var o := Judgement(d.invitation.value.receiverKey, reply);
    if o.Some? then Finish(d, o.value) else d
  }

  /** The variables of `pairWithReceiver` and its event callbacks. */
  class PairAttempt {
    const text: string
    const invitation := ParseInvitation(text)
    var submitted: bool
    var result: Option<Outcome>

    function View(): Dialer
      reads this
    {
      Dialer(invitation, submitted, result)
    }

    constructor (text: string)
      ensures View() == Dial(text)
    {
      this.text, submitted := text, false;
      result := if ParseInvitation(text).None? then Some(PairError(UnusableInvitation)) else None;
    }

    /** `finish` */
    method Settle(o: Outcome)
      modifies this`result
      ensures View() == Finish(old(View()), o)
    {
      if result.Some? { return; }
      result := Some(o);
    }

    /** The timeout, the close and error events, and the catch around the whole attempt. */
    method OnCut()
      modifies this`result
      ensures View() == Cut(old(View()))
    {
      Settle(PairError(if submitted then UnknownOutcome else Unavailable));
    }

    /** The connect event; the result is the frame to send, if any. */
    method OnConnect(remoteKey: string) returns (request: Option<seq<byte>>)
      requires invitation.Some?
      modifies this
      ensures View() == OnConnected(old(View()), remoteKey)
      ensures request.Some? <==> old(Sends(View(), remoteKey))
      ensures request.Some? ==> EnrollmentSecret(request.value) == Secret(invitation.value.secret)
    {
      if result.Some? { return None; }
      if remoteKey != invitation.value.receiverKey {
        Settle(PairError(Unavailable));
        return None;
      }
      submitted := true;
      SecretOfRequest([], invitation.value.secret);
      return Some(EnrollmentRequest(invitation.value.secret));
    }

    /** The receive callback. */
    method OnFrame(reply: Reply)
      requires invitation.Some?
      modifies this`result
      ensures View() == OnReply(old(View()), reply)
    {
      match reply {
        case Greeting => return;
        case UnusableReply => Settle(PairError(UnusableInvitation));
        case Refused(reason) => Settle(PairError(Denied(reason)));
        case Accepted(address, receiverAddress, key) =>
          if key != invitation.value.receiverKey { Settle(PairError(UnknownOutcome)); return; }
          if !ConfigParses(address, receiverAddress) { Settle(PairError(UnknownOutcome)); return; }
          Settle(Paired(address, receiverAddress, key));
        case _ => Settle(PairError(UnknownOutcome));
      }
    }

    /** The send fails, or the stream ends or breaks its framing, after the request was submitted. */
    method OnReceiveEnded()
      requires submitted
      modifies this`result
      ensures View() == Cut(old(View()))
    {
      if result.None? { Settle(PairError(UnknownOutcome)); }
    }
  }

  // ---- The receiver's answer ----

  function ReplyFor(identity: Identity, answer: Response): Reply {
    match answer
    case Enrolled(device) => Accepted(device.address, identity.receiverAddress, identity.receiverKey)
    case Failed(Rejected(reason)) => Refused(reason)
    case Failed(Unusable) => UnusableReply
    case _ => UnknownReply
  }

  /** The engine's `enroll` on a received frame; `committed` is what makes it announce a change afterwards. */
  method AnswerRequest(receiver: Receiver, key: string, frame: seq<byte>, now: Instant, conflict: bool, open: bool,
                       outcome: SaveOutcome)
    returns (reply: Reply, committed: bool)
    requires receiver.stage.Idle? && !receiver.stopped
    modifies receiver.store`state, receiver.store`failed, receiver.store.file
    ensures committed <==> reply.Accepted?
    ensures var asked := EnrollmentSecret(frame);
            var stored := Perform(receiver.store.digest, old(receiver.store.file.contents),
                                  old(Memory(receiver.store.state, receiver.store.failed)),
                                  Enroll(key, if asked.Secret? then asked.secret else "", now), outcome);
            reply == if asked.Secret?
                     then ReplyFor(old(receiver.store.state.identity),
                                   EnrollmentAnswer(conflict, open && !receiver.stopping, stored.response))
                     else UnusableReply
    ensures !EnrollmentSecret(frame).Secret? ==> receiver.View() == old(receiver.View())
  {
    var identity := receiver.store.state.identity;
    var asked := EnrollmentSecret(frame);
    if !asked.Secret? {
      return UnusableReply, false;
    }
    var answer := receiver.OnEnrollment(key, asked.secret, now, conflict, open, outcome);
    reply := ReplyFor(identity, answer);
    committed := answer.Enrolled?;
  }

  // ---- The attempt as a protocol ----

  /** The receiver's end of the stream: not yet attached, waiting for the request, or done with its one enrollment. */
  datatype Stage = Unattached | Listening | Ceased

  /** The dialer, the receiver's end, and the replies under way. */
  datatype Net = Net(dialer: Dialer, stage: Stage, replies: seq<Reply>)

  datatype Event =
    | Elsewhere                              // the store works for others, or is reopened
    | Connects(remoteKey: string)            // once; the request is under way if the key is the invitation's
    | Breaks                                 // close, error, timeout, end of stream: the dialer sees no more
    | Delivers                               // the dialer reads the next reply
    | Attaches(known: bool)                  // the receiver accepts the stream; a peer it knows is greeted first
    | Detaches                               // the receiver drops the stream
    | Enrolls(conflict: bool, open: bool, now: Instant, outcome: SaveOutcome, sent: bool)

  predicate Enabled(net: Net, v: Event) {
    match v
    case Connects(_) => net.dialer.invitation.Some? && !net.dialer.submitted
    case Delivers => net.dialer.invitation.Some? && net.dialer.submitted && net.replies != []
    case Attaches(_) => net.stage.Unattached?
    case Enrolls(_, _, _, _, _) => net.stage.Listening? && net.dialer.submitted && net.dialer.invitation.Some?
    case _ => true
  }

  /** One step; `answer` is what the receiver has to say to the request. */
  function React(net: Net, v: Event, answer: Reply): Net
    requires Enabled(net, v)
  {
    match v
    case Elsewhere => net
    case Connects(key) => net.(dialer := OnConnected(net.dialer, key))
    case Breaks => net.(dialer := Cut(net.dialer))
    case Delivers => net.(dialer := OnReply(net.dialer, net.replies[0]), replies := net.replies[1..])
    case Attaches(known) => net.(stage := Listening, replies := net.replies + if known then [Greeting] else [])
    case Detaches => net.(stage := Ceased)
    case Enrolls(_, _, _, _, sent) => net.(stage := Ceased, replies := net.replies + if sent then [answer] else [])
  }

  /** An attempt by the device `key` with the invitation `text`, beside a run of the receiver's store. */
  datatype Trace = Trace(key: string, text: string, events: seq<Event>, nets: seq<Net>, store: Run)

  /** Step `n` puts the request to the store. */
  predicate Asks(t: Trace, n: nat)
    requires n < |t.events|
  {
    t.events[n].Enrolls? && !t.events[n].conflict && t.events[n].open
  }

  /** What the receiver answers at step `n`. */
  function AnswerAt(t: Trace, n: nat): Reply
    requires n < |t.events| == |t.store.responses| < |t.store.systems|
  {
    var v, running := t.events[n], t.store.systems[n].running;
    if v.Enrolls? && running.Some?
      then ReplyFor(running.value.state.identity, EnrollmentAnswer(v.conflict, v.open, t.store.responses[n]))
    else UnknownReply
  }

  ghost predicate Moves(t: Trace, n: nat)
    requires n < |t.events| == |t.store.responses| == |t.store.steps| && |t.nets| == |t.store.systems| == |t.events| + 1
  {
    && Enabled(t.nets[n], t.events[n])
    && t.nets[n + 1] == React(t.nets[n], t.events[n], AnswerAt(t, n))
    && (t.events[n].Enrolls? ==> t.store.systems[n].running.Some?)
    && (Asks(t, n) ==>
          t.store.steps[n]
            == Operate(Enroll(t.key, t.nets[n].dialer.invitation.value.secret, t.events[n].now), t.events[n].outcome))
  }

  ghost predicate IsTrace(digest: string -> string, t: Trace) {
    && |t.events| == |t.store.responses| == |t.store.steps| && |t.nets| == |t.store.systems| == |t.events| + 1
    && IsRun(digest, t.store) && SoundDigest(digest) && FreshSecrets(t.store)
    && t.nets[0] == Net(Dial(t.text), Unattached, [])
    && forall n | 0 <= n < |t.events| :: Moves(t, n)
  }

  // ---- What every step keeps ----

  /** The outcome is the dialer's reading of what the receiver answered at step `i`. */
  ghost predicate Decided(t: Trace, i: nat, o: Outcome)
    requires i < |t.events| == |t.store.responses| < |t.store.systems|
  {
    && t.events[i].Enrolls? && ParseInvitation(t.text).Some?
    && Judgement(ParseInvitation(t.text).value.receiverKey, AnswerAt(t, i)) == Some(o)
  }

  /** A reply under way is the greeting or the answer of an earlier step. */
  ghost predicate Sourced(t: Trace, n: nat, reply: Reply)
    requires n <= |t.events| == |t.store.responses| < |t.store.systems|
  {
    reply.Greeting? || exists i: nat :: i < n && t.events[i].Enrolls? && reply == AnswerAt(t, i)
  }

  ghost predicate AllSourced(t: Trace, n: nat, replies: seq<Reply>)
    requires n <= |t.events| == |t.store.responses| < |t.store.systems|
  {
    forall k | 0 <= k < |replies| :: Sourced(t, n, replies[k])
  }

  /** An outcome other than "unknown" has a reason: no request was sent, or an answer said so. */
  ghost predicate Explained(t: Trace, n: nat, d: Dialer)
    requires n <= |t.events| == |t.store.responses| < |t.store.systems|
  {
    d.outcome.Some? && d.outcome.value != PairError(UnknownOutcome) ==>
      (!d.submitted && d.outcome.value.PairError?) || exists i: nat :: i < n && Decided(t, i, d.outcome.value)
  }

  ghost predicate Sound(t: Trace, n: nat)
    requires n < |t.nets| && |t.events| == |t.store.responses| < |t.store.systems| && |t.nets| == |t.events| + 1
  {
    var net := t.nets[n];
    && net.dialer.invitation == ParseInvitation(t.text)
    && (net.dialer.invitation.None? ==> net.dialer.outcome.Some?)
    && AllSourced(t, n, net.replies)
    && Explained(t, n, net.dialer)
    && (forall i: nat | i < n && t.events[i].Enrolls? :: net.stage.Ceased? && net.dialer.submitted)
  }

  lemma SourcedLater(t: Trace, n: nat, reply: Reply)
    requires n < |t.events| == |t.store.responses| < |t.store.systems| && Sourced(t, n, reply)
    ensures Sourced(t, n + 1, reply)
  {
    if !reply.Greeting? {
      var i: nat :| i < n && t.events[i].Enrolls? && reply == AnswerAt(t, i);
    }
  }

  lemma RepliesStep(t: Trace, n: nat)
    requires n < |t.events| == |t.store.responses| == |t.store.steps| && |t.nets| == |t.store.systems| == |t.events| + 1
    requires Sound(t, n) && Moves(t, n)
    ensures AllSourced(t, n + 1, t.nets[n + 1].replies)
  {
    var old', new' := t.nets[n].replies, t.nets[n + 1].replies;
    forall k | 0 <= k < |new'| ensures Sourced(t, n + 1, new'[k]) {
      var from := if t.events[n].Delivers? then k + 1 else k;
      if from < |old'| {
        SourcedLater(t, n, old'[from]);
      }
    }
  }

  lemma ExplainedStep(t: Trace, n: nat)
    requires n < |t.events| == |t.store.responses| == |t.store.steps| && |t.nets| == |t.store.systems| == |t.events| + 1
    requires Sound(t, n) && Moves(t, n)
    ensures Explained(t, n + 1, t.nets[n + 1].dialer)
  {
    var d, e := t.nets[n].dialer, t.nets[n + 1].dialer;
    if d.outcome.Some? {
      if d.outcome.value != PairError(UnknownOutcome) && (d.submitted || d.outcome.value.Paired?) {
        var i: nat :| i < n && Decided(t, i, d.outcome.value);
      }
    } else if t.events[n].Delivers? {
      assert Sourced(t, n, t.nets[n].replies[0]);
      if e.outcome.Some? {
        var i: nat :| i < n && t.events[i].Enrolls? && t.nets[n].replies[0] == AnswerAt(t, i);
        assert Decided(t, i, e.outcome.value);
      }
    }
  }

  lemma {:induction false} ReachableSound(digest: string -> string, t: Trace, n: nat)
    requires IsTrace(digest, t) && n <= |t.events|
    ensures Sound(t, n)
  {
    if n > 0 {
      ReachableSound(digest, t, n - 1);
      assert Moves(t, n - 1);
      RepliesStep(t, n - 1);
      ExplainedStep(t, n - 1);
    }
  }

  /** Each stream carries at most one enrollment. */
  lemma OneEnrollment(digest: string -> string, t: Trace, i: nat, j: nat)
    requires IsTrace(digest, t) && i < |t.events| && j < |t.events| && t.events[i].Enrolls? && t.events[j].Enrolls?
    ensures i == j
  {
    ReachableSound(digest, t, i);
    ReachableSound(digest, t, j);
    assert Moves(t, i) && Moves(t, j);
  }

  /** Once the dialer is done, it stays as it is. */
  lemma {:induction false} OutcomeIsFinal(digest: string -> string, t: Trace, n: nat, m: nat)
    requires IsTrace(digest, t) && n <= m <= |t.events| && t.nets[n].dialer.outcome.Some?
    ensures t.nets[m].dialer == t.nets[n].dialer
    decreases m
  {
    if n < m {
      OutcomeIsFinal(digest, t, n, m - 1);
      assert Moves(t, m - 1);
    }
  }

  // ---- What the dialer may conclude ----

  /** A refusal comes before the save: file and memory are untouched. */
  lemma RefusalSavesNothing(digest: string -> string, y: System, op: Op, outcome: SaveOutcome)
    requires op.Enroll?
    requires var r := Next(digest, y, Operate(op, outcome)).response;
               r.Failed? && (r.failure.Rejected? || r.failure.Unusable?)
    ensures Next(digest, y, Operate(op, outcome)).system == y
  {
  }

  /** The dialer reads an answer as a configuration only if the store enrolled the device. */
  lemma PairedWasAnswered(digest: string -> string, t: Trace, n: nat, o: Outcome) returns (device: Device)
    requires IsTrace(digest, t) && n < |t.events| && Decided(t, n, o) && o.Paired?
    ensures Asks(t, n) && t.store.responses[n] == Enrolled(device) && t.store.systems[n].running.Some?
    ensures var identity := t.store.systems[n].running.value.state.identity;
            && o == Paired(device.address, identity.receiverAddress, identity.receiverKey)
            && identity.receiverKey == ParseInvitation(t.text).value.receiverKey
  {
    device := t.store.responses[n].device;
  }

  lemma AskedIsStoreStep(digest: string -> string, t: Trace, n: nat, device: Device)
    requires IsTrace(digest, t) && n < |t.events| && Asks(t, n) && ParseInvitation(t.text).Some?
    requires t.store.responses[n] == Enrolled(device)
    ensures Succeeds(t.store, n, t.key, ParseInvitation(t.text).value.secret, device)
  {
    ReachableSound(digest, t, n);
    assert Moves(t, n);
  }

  /** A returned configuration is the truth: this attempt's request was answered by the store, which has spent the
      invitation within its life and holds this device with this address in its file; the addresses and keys are the
      receiver's own. */
  lemma PairedMeansCommitted(digest: string -> string, t: Trace, m: nat) returns (n: nat, device: Device)
    requires IsTrace(digest, t) && m <= |t.events|
    requires t.nets[m].dialer.outcome.Some? && t.nets[m].dialer.outcome.value.Paired?
    ensures n < m && Asks(t, n) && ParseInvitation(t.text).Some?
    ensures Succeeds(t.store, n, t.key, ParseInvitation(t.text).value.secret, device)
    ensures t.store.systems[n + 1].file.Some? && device in t.store.systems[n + 1].file.value.devices
    ensures device.publicKey == t.key
    ensures t.store.systems[n].running.Some?
    ensures var identity := t.store.systems[n].running.value.state.identity;
            && t.nets[m].dialer.outcome.value == Paired(device.address, identity.receiverAddress, identity.receiverKey)
            && identity.receiverKey == ParseInvitation(t.text).value.receiverKey
  {
    ReachableSound(digest, t, m);
    n :| n < m && Decided(t, n, t.nets[m].dialer.outcome.value);
    device := PairedWasAnswered(digest, t, n, t.nets[m].dialer.outcome.value);
    AskedIsStoreStep(digest, t, n, device);
    var c := SuccessFacts(digest, t.store, n, t.key, ParseInvitation(t.text).value.secret, device);
  }

  /** The file read at step `k` admits the attempt's key with this address. */
  ghost predicate Admitted(t: Trace, k: nat, address: string)
    requires k < |t.store.systems|
  {
    && t.store.systems[k].file.Some?
    && exists d :: d in t.store.systems[k].file.value.devices && d.publicKey == t.key && d.address == address
  }

  /** And it stays true: the device is in the file, with the address the dialer was told, at every later step until it
      is revoked. */
  lemma PairedIsDurable(digest: string -> string, t: Trace, m: nat) returns (n: nat)
    requires IsTrace(digest, t) && m <= |t.events|
    requires t.nets[m].dialer.outcome.Some? && t.nets[m].dialer.outcome.value.Paired?
    ensures n < m && Asks(t, n)
    ensures forall k | n < k <= |t.events| && Unrevoked(t.store, n + 1, k, t.key) ::
              Admitted(t, k, t.nets[m].dialer.outcome.value.address)
  {
    var device;
    n, device := PairedMeansCommitted(digest, t, m);
    forall k | n < k <= |t.events| && Unrevoked(t.store, n + 1, k, t.key)
      ensures Admitted(t, k, t.nets[m].dialer.outcome.value.address)
    {
      SuccessIsDurable(digest, t.store, n, k, t.key, ParseInvitation(t.text).value.secret, device);
    }
  }

  /** A refusal that the dialer reads as such left the store alone. */
  lemma RefusedLeavesStore(digest: string -> string, t: Trace, n: nat, receiverKey: string)
    requires IsTrace(digest, t) && n < |t.events| && Asks(t, n)
    requires var o := Judgement(receiverKey, AnswerAt(t, n));
               o.Some? && o.value.PairError? && o.value.reason != UnknownOutcome
    ensures t.store.systems[n + 1] == t.store.systems[n]
  {
    assert Moves(t, n) && StepHolds(digest, t.store, n);
    var r := t.store.responses[n];
    assert r.Failed? && (r.failure.Rejected? || r.failure.Unusable?);
    RefusalSavesNothing(digest, t.store.systems[n], t.store.steps[n].op, t.store.steps[n].outcome);
  }

  /** Every failure but "unknown" is a promise: whatever this attempt asked of the store, before or after the dialer was
      told, changed neither file nor memory. */
  lemma FailureMeansNothingCommitted(digest: string -> string, t: Trace, m: nat, n: nat)
    requires IsTrace(digest, t) && m <= |t.events| && n < |t.events|
    requires t.nets[m].dialer.outcome.Some? && t.nets[m].dialer.outcome.value.PairError?
    requires t.nets[m].dialer.outcome.value.reason != UnknownOutcome
    requires Asks(t, n)
    ensures t.store.systems[n + 1] == t.store.systems[n]
  {
    ReachableSound(digest, t, m);
    ReachableSound(digest, t, |t.events|);
    OutcomeIsFinal(digest, t, m, |t.events|);
    var i: nat :| i < m && Decided(t, i, t.nets[m].dialer.outcome.value);
    OneEnrollment(digest, t, i, n);
    RefusedLeavesStore(digest, t, n, ParseInvitation(t.text).value.receiverKey);
  }

  /** Two attempts, by anyone, with one invitation against one receiver: at most one is told that it is paired. */
  lemma OnePairingPerInvitation(digest: string -> string, t: Trace, u: Trace, m: nat, k: nat)
    requires IsTrace(digest, t) && IsTrace(digest, u) && t.store == u.store && t.text == u.text
    requires m <= |t.events| && t.nets[m].dialer.outcome.Some? && t.nets[m].dialer.outcome.value.Paired?
    requires k <= |u.events| && u.nets[k].dialer.outcome.Some? && u.nets[k].dialer.outcome.value.Paired?
    ensures t.key == u.key && t.nets[m].dialer.outcome == u.nets[k].dialer.outcome
  {
    var i, d := PairedMeansCommitted(digest, t, m);
    var j, e := PairedMeansCommitted(digest, u, k);
    var secret := ParseInvitation(t.text).value.secret;
    if i <= j {
      SecretIsUsedAtMostOnce(digest, t.store, i, j, secret, t.key, d, u.key, e);
    } else {
      SecretIsUsedAtMostOnce(digest, t.store, j, i, secret, u.key, e, t.key, d);
    }
  }

  lemma GrantedAddressParses(digest: string -> string, s: State, key: string, secret: string, now: Instant)
    requires WellFormed(s) && UsableIdentity(s.identity) && PlanEnrollment(digest, s, key, secret, now).Save?
    ensures var granted := PlanEnrollment(digest, s, key, secret, now).afterwards;
            granted.Enrolled? && granted.device.publicKey == key
              && ConfigParses(granted.device.address, s.identity.receiverAddress)
  {
    var i := EnrollmentFacts(digest, s, key, secret, now);
    EnrollmentKeepsValid(digest, s, key, secret, now);
    var plan := PlanEnrollment(digest, s, key, secret, now);
    var j :| 0 <= j < |plan.next.devices| && plan.next.devices[j] == plan.afterwards.device;
    assert ValidDevice(plan.next.devices[j], plan.next.identity, PoolRange(plan.next.identity.pool).value);
  }

  /** A commit whose answer arrives is never reported as unknown: the addresses the store hands out always make a
      configuration for an invitation of this receiver. */
  lemma CommitReadsAsPaired(digest: string -> string, t: Trace, n: nat)
    requires IsTrace(digest, t) && n < |t.events| && Asks(t, n) && t.store.responses[n].Enrolled?
    ensures t.store.systems[n].running.Some?
    ensures var identity, device := t.store.systems[n].running.value.state.identity, t.store.responses[n].device;
            Judgement(identity.receiverKey, AnswerAt(t, n))
              == Some(Paired(device.address, identity.receiverAddress, identity.receiverKey))
  {
    assert Moves(t, n) && StepHolds(digest, t.store, n);
    ReachableGood(digest, t.store, n);
    var secret, v := t.nets[n].dialer.invitation.value.secret, t.events[n];
    EnrolledWasPlanned(digest, t.store.systems[n], t.key, secret, v.now, v.outcome);
    GrantedAddressParses(digest, t.store.systems[n].running.value.state, t.key, secret, v.now);
  }

  // ---- "Unknown" cannot be avoided ----

  /** The trace continued by one event, while the store takes the given step. */
  ghost function Extend(digest: string -> string, t: Trace, v: Event, step: Step): Trace
    requires |t.events| == |t.store.responses| == |t.store.steps| && |t.nets| == |t.store.systems| == |t.events| + 1
    requires Enabled(t.nets[|t.events|], v)
  {
    var n := |t.events|;
    var after := Next(digest, t.store.systems[n], step);
    var store := Run(t.store.steps + [step], t.store.systems + [after.system], t.store.responses + [after.response]);
    var longer := Trace(t.key, t.text, t.events + [v], t.nets + [t.nets[n]], store);
    longer.(nets := t.nets + [React(t.nets[n], v, AnswerAt(longer, n))])
  }

  lemma ExtendIsTrace(digest: string -> string, t: Trace, v: Event, step: Step)
    requires IsTrace(digest, t) && Enabled(t.nets[|t.events|], v) && !Creates(step)
    requires v.Enrolls? ==>
               && t.store.systems[|t.events|].running.Some?
               && step == Operate(Enroll(t.key, t.nets[|t.events|].dialer.invitation.value.secret, v.now), v.outcome)
    ensures IsTrace(digest, Extend(digest, t, v, step))
  {
    var u := Extend(digest, t, v, step);
    forall n: nat | n < |u.events| ensures Moves(u, n) && StepHolds(digest, u.store, n) {
      if n < |t.events| {
        assert Moves(t, n) && StepHolds(digest, t.store, n);
      }
    }
  }

  /** The store's step when nobody asks it for a change. */
  const Listing := Operate(List, Saved(true))

  lemma ListingChangesNothing(digest: string -> string, y: System)
    ensures Next(digest, y, Listing).system == y
  {
  }

  /** The run goes on with the stream breaking for the dialer. */
  lemma BreakEndsUnknown(digest: string -> string, t: Trace)
    requires IsTrace(digest, t)
    requires var d := t.nets[|t.events|].dialer; d.submitted && d.outcome.None?
    ensures var u := Extend(digest, t, Breaks, Listing);
            && IsTrace(digest, u) && u.events == t.events + [Breaks] && u.key == t.key
            && u.nets[|u.events|].dialer == t.nets[|t.events|].dialer.(outcome := Some(PairError(UnknownOutcome)))
            && u.store.systems[|u.events|] == t.store.systems[|t.events|]
  {
    ExtendIsTrace(digest, t, Breaks, Listing);
    ListingChangesNothing(digest, t.store.systems[|t.events|]);
  }

  lemma GrantIsInFile(digest: string -> string, y: System, key: string, secret: string, now: Instant)
    requires y.running.Some? && !y.running.value.failed && WellFormed(y.running.value.state)
    requires PlanEnrollment(digest, y.running.value.state, key, secret, now).Save?
    ensures var z := Next(digest, y, Operate(Enroll(key, secret, now), Saved(true))).system;
            var plan := PlanEnrollment(digest, y.running.value.state, key, secret, now);
            && z.file == Some(plan.next) && plan.afterwards.Enrolled?
            && plan.afterwards.device in plan.next.devices && plan.afterwards.device.publicKey == key
  {
    var i := EnrollmentFacts(digest, y.running.value.state, key, secret, now);
  }

  /** The run goes on with the store granting the request, while the answer is lost. */
  lemma GrantIsInvisible(digest: string -> string, t: Trace, now: Instant)
    requires IsTrace(digest, t) && GrantIsDue(digest, t, now)
    ensures var v := Enrolls(false, true, now, Saved(true), false);
            var step := Operate(Enroll(t.key, t.nets[|t.events|].dialer.invitation.value.secret, now), Saved(true));
            var u := Extend(digest, t, v, step);
            && IsTrace(digest, u) && u.events == t.events + [v] && u.key == t.key
            && u.nets[|u.events|].dialer == t.nets[|t.events|].dialer
            && exists address :: Admitted(u, |u.events|, address)
  {
    var secret := t.nets[|t.events|].dialer.invitation.value.secret;
    var v, step := Enrolls(false, true, now, Saved(true), false), Operate(Enroll(t.key, secret, now), Saved(true));
    ExtendIsTrace(digest, t, v, step);
    ReachableGood(digest, t.store, |t.events|);
    var y := t.store.systems[|t.events|];
    GrantIsInFile(digest, y, t.key, secret, now);
    var device := PlanEnrollment(digest, y.running.value.state, t.key, secret, now).afterwards.device;
    assert Admitted(Extend(digest, t, v, step), |t.events| + 1, device.address);
  }

  /** A request is under way, the dialer is undecided, and the store would grant it. */
  ghost predicate GrantIsDue(digest: string -> string, t: Trace, now: Instant)
    requires IsTrace(digest, t)
  {
    var net, y := t.nets[|t.events|], t.store.systems[|t.events|];
    && net.dialer.submitted && net.dialer.outcome.None? && net.dialer.invitation.Some? && net.stage.Listening?
    && y.running.Some? && !y.running.value.failed
    && PlanEnrollment(digest, y.running.value.state, t.key, net.dialer.invitation.value.secret, now).Save?
  }

  /** Whenever a grant is due, the run can go on so that the dialer ends with "unknown" and the device is in the file,
      and also so that it ends with "unknown" and the store is as it was; what the dialer observes from here on is the
      same: its stream breaks. So no reading of its observations could do better. */
  lemma UnknownIsUnavoidable(digest: string -> string, t: Trace, now: Instant) returns (granted: Trace, lost: Trace)
    requires IsTrace(digest, t) && GrantIsDue(digest, t, now)
    ensures IsTrace(digest, granted) && IsTrace(digest, lost)
    ensures granted.events == t.events + [Enrolls(false, true, now, Saved(true), false)] + [Breaks]
            && lost.events == t.events + [Breaks]
    ensures granted.nets[|granted.events|].dialer == lost.nets[|lost.events|].dialer
    ensures lost.nets[|lost.events|].dialer.outcome == Some(PairError(UnknownOutcome))
    ensures exists address :: Admitted(granted, |granted.events|, address)
    ensures lost.store.systems[|lost.events|] == t.store.systems[|t.events|]
  {
    GrantIsInvisible(digest, t, now);
    var v := Enrolls(false, true, now, Saved(true), false);
    var committed := Extend(digest, t, v,
                            Operate(Enroll(t.key, t.nets[|t.events|].dialer.invitation.value.secret, now),
                                    Saved(true)));
    BreakEndsUnknown(digest, committed);
    granted := Extend(digest, committed, Breaks, Listing);
    var address :| Admitted(committed, |committed.events|, address);
    assert Admitted(granted, |granted.events|, address);
    BreakEndsUnknown(digest, t);
    lost := Extend(digest, t, Breaks, Listing);
  }
}
