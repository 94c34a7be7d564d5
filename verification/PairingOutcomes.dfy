/** Which outcome an attempt at pairing ends in, from the events alone: the first deciding event settles it, and how. */
module PairingOutcomes {
  import opened Common
  import opened Addresses
  import opened ReceiverStore
  import opened ReceiverGenerations
  import opened Invitations
  import opened Pairing

  /** The receiver's key as the invitation names it. */
  function NamedKey(t: Trace): string
    requires ParseInvitation(t.text).Some?
  {
    ParseInvitation(t.text).value.receiverKey
  }

  /** The dialer has reached the receiver that the invitation names, so its request is on the way. */
  predicate Reaches(t: Trace, i: nat)
    requires i < |t.events|
  {
    ParseInvitation(t.text).Some? && t.events[i] == Connects(NamedKey(t))
  }

  /** The event decides the attempt: the stream breaks or the time is up, the wrong receiver answers the call, or a
      frame other than the greeting is read. */
  predicate Decides(t: Trace, i: nat)
    requires i < |t.events| < |t.nets|
  {
    || t.events[i].Breaks?
    || (t.events[i].Connects? && !Reaches(t, i))
    || (t.events[i].Delivers? && t.nets[i].replies != [] && t.nets[i].replies[0] != Greeting)
  }

  /** The text parses and none of the first `n` events decides. */
  ghost predicate Undecided(t: Trace, n: nat)
    requires n <= |t.events| < |t.nets|
  {
    ParseInvitation(t.text).Some? && forall i | 0 <= i < n :: !Decides(t, i)
  }

  /** One of the first `n` events reached the receiver. */
  ghost predicate HasReached(t: Trace, n: nat)
    requires n <= |t.events|
  {
    exists i: nat :: i < n && Reaches(t, i)
  }

  lemma MoveWhileUndecided(digest: string -> string, t: Trace, m: nat, n: nat)
    requires IsTrace(digest, t) && m < |t.events| && n == m + 1 && ParseInvitation(t.text).Some?
    requires t.nets[m].dialer.invitation == ParseInvitation(t.text) && t.nets[m].dialer.outcome.None?
    ensures t.nets[n].dialer.invitation == ParseInvitation(t.text)
    ensures t.nets[n].dialer.outcome.None? <==> !Decides(t, m)
    ensures t.nets[n].dialer.submitted <==> t.nets[m].dialer.submitted || Reaches(t, m)
  {
    assert Moves(t, m);
  }

  lemma {:induction false} UndecidedSoFar(digest: string -> string, t: Trace, n: nat)
    requires IsTrace(digest, t) && n <= |t.events|
    ensures t.nets[n].dialer.invitation == ParseInvitation(t.text)
    ensures t.nets[n].dialer.outcome.None? <==> Undecided(t, n)
    ensures Undecided(t, n) ==> (t.nets[n].dialer.submitted <==> HasReached(t, n))
  {
    if n > 0 {
      var m: nat := n - 1;
      UndecidedSoFar(digest, t, m);
      if t.nets[m].dialer.outcome.None? {
        MoveWhileUndecided(digest, t, m, n);
        ReachedNext(t, m, n);
      } else {
        OutcomeIsFinal(digest, t, m, n);
        StaysDecided(t, m, n);
      }
    }
  }

  lemma ReachedNext(t: Trace, m: nat, n: nat)
    requires n == m + 1 <= |t.events|
    ensures HasReached(t, n) <==> HasReached(t, m) || Reaches(t, m)
  {
  }

  lemma StaysDecided(t: Trace, m: nat, n: nat)
    requires m <= n <= |t.events| < |t.nets| && !Undecided(t, m)
    ensures !Undecided(t, n)
  {
  }

  // ---- What the deciding event says ----

  /** What the receiver's handling of a request makes the dialer conclude when it reads the answer. */
  ghost predicate Means(identity: Identity, conflict: bool, open: bool, stored: Response, named: string, o: Outcome) {
    if conflict then o == PairError(Denied(Route))
    else if !open then o == PairError(UnknownOutcome)
    else match stored {
           case Enrolled(device) =>
             if && identity.receiverKey == named && device.address != identity.receiverAddress
                && Ipv4(device.address).Some? && Ipv4(identity.receiverAddress).Some?
             then o == Paired(device.address, identity.receiverAddress, identity.receiverKey)
             else o == PairError(UnknownOutcome)
           case Failed(failure) =>
             o == PairError(match failure
                            case Rejected(reason) => Denied(reason)
                            case Unusable => UnusableInvitation
                            case _ => UnknownOutcome)
           case _ => o == PairError(UnknownOutcome)
         }
  }

  /** The outcome is what the handling of the request at step `a` means. */
  ghost predicate Concludes(t: Trace, a: nat, o: Outcome)
    requires a < |t.events| == |t.store.responses| < |t.store.systems| && ParseInvitation(t.text).Some?
  {
    && t.events[a].Enrolls? && t.store.systems[a].running.Some?
    && Means(t.store.systems[a].running.value.state.identity, t.events[a].conflict, t.events[a].open,
             t.store.responses[a], NamedKey(t), o)
  }

  lemma ReplyMeans(identity: Identity, conflict: bool, open: bool, stored: Response, named: string)
    ensures var reply := ReplyFor(identity, EnrollmentAnswer(conflict, open, stored));
            && reply != Greeting && Judgement(named, reply).Some?
            && Means(identity, conflict, open, stored, named, Judgement(named, reply).value)
  {
    if !conflict && open && stored.Failed? {
      match stored.failure
      case Rejected(reason) =>
      case _ =>
    }
  }

  lemma AnswerConcludes(digest: string -> string, t: Trace, a: nat)
    requires IsTrace(digest, t) && a < |t.events| && t.events[a].Enrolls? && ParseInvitation(t.text).Some?
    ensures AnswerAt(t, a) != Greeting
    ensures Judgement(NamedKey(t), AnswerAt(t, a)).Some?
    ensures Concludes(t, a, Judgement(NamedKey(t), AnswerAt(t, a)).value)
  {
    assert Moves(t, a);
    ReplyMeans(t.store.systems[a].running.value.state.identity, t.events[a].conflict, t.events[a].open,
               t.store.responses[a], NamedKey(t));
  }

  lemma ReadingDecides(digest: string -> string, t: Trace, i: nat, n: nat) returns (a: nat)
    requires IsTrace(digest, t) && i < |t.events| && n == i + 1 && Undecided(t, i) && Decides(t, i)
    requires t.events[i].Delivers?
    ensures a < i && t.events[a].Enrolls? && t.nets[i].replies[0] == AnswerAt(t, a)
    ensures t.nets[n].dialer.outcome.Some? && Concludes(t, a, t.nets[n].dialer.outcome.value)
  {
    UndecidedSoFar(digest, t, i);
    Pairing.ReachableSound(digest, t, i);
    assert Moves(t, i) && Sourced(t, i, t.nets[i].replies[0]);
    a :| a < i && t.events[a].Enrolls? && t.nets[i].replies[0] == AnswerAt(t, a);
    AnswerConcludes(digest, t, a);
  }

  /** The outcome of every attempt at every moment, from the events: none while nothing has decided; otherwise what the
      first deciding event says. A break means "unknown" if and only if the receiver had been reached, the wrong
      receiver means "unavailable", a frame means what the receiver's store answered; a text that does not parse is
      unusable from the start. */
  lemma OutcomeExactly(digest: string -> string, t: Trace, i: nat, n: nat) returns (a: nat)
    requires IsTrace(digest, t) && i < n <= |t.events| && Undecided(t, i) && Decides(t, i)
    ensures t.nets[n].dialer.outcome.Some?
    ensures t.events[i].Breaks? ==>
              t.nets[n].dialer.outcome.value == PairError(if HasReached(t, i) then UnknownOutcome else Unavailable)
    ensures t.events[i].Connects? ==> t.nets[n].dialer.outcome.value == PairError(Unavailable)
    ensures t.events[i].Delivers? ==> a < i && Concludes(t, a, t.nets[n].dialer.outcome.value)
  {
    var next: nat := i + 1;
    UndecidedSoFar(digest, t, i);
    MoveWhileUndecided(digest, t, i, next);
    assert Moves(t, i);
    OutcomeIsFinal(digest, t, next, n);
    a := 0;
    if t.events[i].Delivers? {
      a := ReadingDecides(digest, t, i, next);
    }
  }

  lemma OutcomeNeedsDecision(digest: string -> string, t: Trace, n: nat)
    requires IsTrace(digest, t) && n <= |t.events|
    ensures t.nets[n].dialer.outcome.None? <==> Undecided(t, n)
    ensures ParseInvitation(t.text).None? ==> t.nets[n].dialer.outcome == Some(PairError(UnusableInvitation))
  {
    UndecidedSoFar(digest, t, n);
    if ParseInvitation(t.text).None? {
      OutcomeIsFinal(digest, t, 0, n);
    }
  }

  lemma {:induction false} FirstDecision(t: Trace, n: nat) returns (i: nat)
    requires n <= |t.events| < |t.nets| && ParseInvitation(t.text).Some? && !Undecided(t, n)
    ensures i < n && Undecided(t, i) && Decides(t, i)
  {
    var m: nat := n - 1;
    if Undecided(t, m) {
      i := m;
    } else {
      i := FirstDecision(t, m);
    }
  }

  /** "Unknown" is only ever said when the request was on its way: the receiver named by the invitation had been
      reached. So an attempt that never reached it ends in "unavailable", which makes a retry safe. */
  lemma UnknownNeedsRequest(digest: string -> string, t: Trace, n: nat)
    requires IsTrace(digest, t) && n <= |t.events| && ParseInvitation(t.text).Some? && t.nets[n].dialer.outcome.Some?
    ensures t.nets[n].dialer.outcome == Some(PairError(UnknownOutcome)) ==> HasReached(t, n)
    ensures !HasReached(t, n) ==> t.nets[n].dialer.outcome == Some(PairError(Unavailable))
  {
    OutcomeNeedsDecision(digest, t, n);
    var i := FirstDecision(t, n);
    var a := OutcomeExactly(digest, t, i, n);
    if t.events[i].Delivers? {
      assert Moves(t, i);
      UndecidedSoFar(digest, t, i);
    }
  }

  // ---- The answer gets through ----

  /** The answer of step `a` is still to be read, behind at most the greeting. */
  ghost predicate UnderWay(t: Trace, a: nat, n: nat)
    requires a < |t.events| == |t.store.responses| < |t.store.systems| && n < |t.nets|
  {
    var replies := t.nets[n].replies;
    replies == [AnswerAt(t, a)] || replies == [Greeting, AnswerAt(t, a)]
  }

  /** Before the receiver answers, nothing but the greeting is under way. */
  ghost predicate Quiet(net: Net) {
    && (net.stage.Unattached? ==> net.replies == [])
    && (net.stage.Listening? ==> net.replies == [] || net.replies == [Greeting])
  }

  lemma {:induction false} QuietUntilAnswered(digest: string -> string, t: Trace, n: nat)
    requires IsTrace(digest, t) && n <= |t.events|
    ensures Quiet(t.nets[n])
  {
    if n > 0 {
      var m: nat := n - 1;
      QuietUntilAnswered(digest, t, m);
      assert Moves(t, m);
    }
  }

  lemma UnderWayNext(digest: string -> string, t: Trace, a: nat, m: nat, n: nat)
    requires IsTrace(digest, t) && a < m < |t.events| && n == m + 1 && t.events[a].Enrolls?
    requires UnderWay(t, a, m) && !Decides(t, m) && AnswerAt(t, a) != Greeting
    ensures UnderWay(t, a, n)
  {
    assert Moves(t, m);
    Pairing.ReachableSound(digest, t, m);
  }

  /** An answer that was sent is not lost in the dialer: as long as nothing has decided, it is the last of at most two
      frames still to be read, so reading on decides by it. */
  lemma {:induction false} SentAnswerIsUnderWay(digest: string -> string, t: Trace, a: nat, n: nat)
    requires IsTrace(digest, t) && a < n <= |t.events| && t.events[a].Enrolls? && t.events[a].sent && Undecided(t, n)
    ensures UnderWay(t, a, n)
    decreases n
  {
    var m: nat := n - 1;
    assert Moves(t, m);
    AnswerConcludes(digest, t, a);
    if m == a {
      QuietUntilAnswered(digest, t, m);
    } else {
      SentAnswerIsUnderWay(digest, t, a, m);
      UnderWayNext(digest, t, a, m, n);
    }
  }

  /** A peer the receiver knows is greeted first, a stranger is not. */
  lemma KnownPeerIsGreeted(digest: string -> string, t: Trace, n: nat)
    requires IsTrace(digest, t) && n < |t.events| && t.events[n].Attaches?
    ensures t.nets[n + 1].replies == if t.events[n].known then [Greeting] else []
  {
    assert Moves(t, n);
    QuietUntilAnswered(digest, t, n);
  }

  lemma {:induction false} CeasedStays(digest: string -> string, t: Trace, a: nat, b: nat)
    requires IsTrace(digest, t) && a <= b <= |t.events| && t.nets[a].stage.Ceased?
    ensures t.nets[b].stage.Ceased?
    decreases b
  {
    if a < b {
      var m: nat := b - 1;
      CeasedStays(digest, t, a, m);
      assert Moves(t, m);
    }
  }

  /** A stream that the receiver has dropped, or that has carried its enrollment, never carries another. */
  lemma DroppedStreamNeverEnrolls(digest: string -> string, t: Trace, i: nat, j: nat)
    requires IsTrace(digest, t) && i < j < |t.events| && (t.events[i].Detaches? || t.events[i].Enrolls?)
    ensures !t.events[j].Enrolls?
  {
    var next: nat := i + 1;
    assert Moves(t, i) && Moves(t, j);
    CeasedStays(digest, t, next, j);
  }
}
