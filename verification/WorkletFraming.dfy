/** The provider/worklet IPC stream, as the runtime reads it. */
module WorkletFraming {
  import opened Common
  import opened Framing

  /** A delivered message. */
  datatype Message = Message(kind: byte, payload: seq<byte>)

  function MessageOf(body: seq<byte>): Message
    requires |body| > 0
  {
    Message(body[0], body[1..])
  }

  /** The messages that the frames of a stream stand for. */
  function MessagesOf(bodies: seq<seq<byte>>): (m: seq<Message>)
    requires forall i | 0 <= i < |bodies| :: |bodies[i]| > 0
    ensures |m| == |bodies|
  {
    seq(|bodies|, i requires 0 <= i < |bodies| => MessageOf(bodies[i]))
  }

  /** The frame bodies that carry some messages. */
  function BodiesOf(m: seq<Message>): (bodies: seq<seq<byte>>)
    ensures |bodies| == |m|
  {
    seq(|m|, i requires 0 <= i < |m| => [m[i].kind] + m[i].payload)
  }

  lemma BodiesOfMessages(bodies: seq<seq<byte>>)
    requires forall i | 0 <= i < |bodies| :: |bodies[i]| > 0
    ensures BodiesOf(MessagesOf(bodies)) == bodies
  {
    forall i | 0 <= i < |bodies| ensures BodiesOf(MessagesOf(bodies))[i] == bodies[i] {
      assert [bodies[i][0]] + bodies[i][1..] == bodies[i];
    }
  }

  /** The body of `receive`'s loop over chunks; `before` is everything earlier chunks held. */
  method ReceiveChunk(buffer: FrameBuffer, chunk: seq<byte>, frames: seq<seq<byte>>, ghost before: seq<byte>)
    returns (now: seq<seq<byte>>, fault: Option<Fault>)
    requires buffer.Valid() && buffer.format == IpcFormat && Holds(IpcFormat, before, frames, buffer.Held())
    modifies buffer, buffer.header, buffer.frame
    ensures buffer.frame == null || buffer.frame == old(buffer.frame) || fresh(buffer.frame)
    ensures fault.None? ==> buffer.Valid() && Holds(IpcFormat, before + chunk, now, buffer.Held())
    ensures fault.Some? ==> var p := Scan(IpcFormat, before + chunk); p.frames == now && p.fault == fault
  {
    now := frames;
    var offset := 0;
    assert before + chunk[..0] == before;
    while offset < |chunk|
      invariant 0 <= offset <= |chunk|
      invariant buffer.frame == null || buffer.frame == old(buffer.frame) || fresh(buffer.frame)
      invariant buffer.Valid() && Holds(IpcFormat, before + chunk[..offset], now, buffer.Held())
    {
      ghost var held := buffer.Held();
      var next, turn := buffer.Take(chunk, offset);
      CutChunk(before, chunk, offset, next);
      TakeTurn(IpcFormat, before + chunk[..offset], chunk[offset..next], chunk[next..], now, held, turn,
               if turn.LengthRefused? then [] else buffer.Held());
      offset := next;
      if turn.LengthRefused? {
        return now, Some(BadLength);
      }
      if turn.Full? {
        if turn.body[0] != IPC_CONTROL && turn.body[0] != IPC_PACKET {
          return now, Some(BadKind);
        }
        now := now + [turn.body];
      }
    }
    assert chunk[..|chunk|] == chunk;
    fault := None;
  }

  /** `receive`, on a stream given by its chunks: the messages delivered and how it ended. */
  method Receive(chunks: seq<seq<byte>>) returns (delivered: seq<Message>, ending: Ending)
    ensures var p := Scan(IpcFormat, Flatten(chunks));
            Encodable(IpcFormat, p.frames) && delivered == MessagesOf(p.frames) && ending == EndingOf(p)
  {
    var buffer := new FrameBuffer(IpcFormat);
    var frames: seq<seq<byte>> := [];
    EncodeOfDecode(IpcFormat, Flatten(chunks));
    for n := 0 to |chunks|
      invariant buffer.Valid() && fresh(buffer) && fresh(buffer.header)
                && (buffer.frame != null ==> fresh(buffer.frame))
      invariant buffer.format == IpcFormat
      invariant Holds(IpcFormat, Flatten(chunks[..n]), frames, buffer.Held())
    {
      var fault;
      frames, fault := ReceiveChunk(buffer, chunks[n], frames, Flatten(chunks[..n]));
      FlattenSnoc(chunks, n);
      if fault.Some? {
        FaultIsFinal(IpcFormat, chunks, n + 1);
        return MessagesOf(frames), Broken(fault.value);
      }
    }
    assert chunks[..|chunks|] == chunks;
    delivered := MessagesOf(frames);
    ending := if buffer.Empty() then Complete else Truncated;
  }

  const MAX_PENDING := 32

  /** A frame waiting for its turn on the stream. */
  datatype Task = Task(diagnostic: bool, body: seq<byte>)

  function Ordinary(queue: seq<Task>): (n: nat)
    ensures n <= |queue|
  {
    if queue == [] then 0 else Ordinary(queue[1..]) + if queue[0].diagnostic then 0 else 1
  }

  lemma {:induction false} OrdinarySnoc(queue: seq<Task>, t: Task)
    ensures Ordinary(queue + [t]) == Ordinary(queue) + if t.diagnostic then 0 else 1
  {
    if queue == [] {
      assert [t][1..] == [] && queue + [t] == [t];
    } else {
      OrdinarySnoc(queue[1..], t);
      assert (queue + [t])[1..] == queue[1..] + [t];
    }
  }

  datatype SendResult = Queued | InvalidFrame | Congested

  /** The writing half: frames go out whole, in the order they were accepted. */
  class Sender {
    var pending: nat
    var diagnosticPending: bool
    var destroyed: bool
    var queue: seq<Task>             // the chain behind `writeTail`
    var wire: seq<byte>              // everything the stream has been given
    ghost var bodies: seq<seq<byte>>  // the frames in it

    ghost predicate Valid()
      reads this
    {
      && pending == Ordinary(queue) && pending <= MAX_PENDING
      && |queue| == pending + (if diagnosticPending then 1 else 0)
      && (forall i | 0 <= i < |queue| :: GoodBody(IpcFormat, queue[i].body))
      && Encodable(IpcFormat, bodies) && wire == EncodeAll(IpcFormat, bodies)
    }

    constructor ()
      ensures Valid() && queue == [] && wire == [] && bodies == [] && !destroyed
    {
      pending, diagnosticPending, destroyed, queue, wire, bodies := 0, false, false, [], [], [];
    }

    /** `send`, up to the queueing of the frame. */
    method Send(kind: byte, payload: seq<byte>) returns (r: SendResult)
      requires Valid()
      modifies this`pending, this`queue
      ensures Valid()
      ensures r == if !GoodBody(IpcFormat, [kind] + payload) then InvalidFrame
                   else if old(pending) == MAX_PENDING then Congested else Queued
      ensures queue == if r.Queued? then old(queue) + [Task(false, [kind] + payload)] else old(queue)
    {
      if (kind != IPC_CONTROL && kind != IPC_PACKET) || |payload| + 1 > 32768 {
        return InvalidFrame;
      }
      if pending >= MAX_PENDING {
        return Congested;
      }
      pending := pending + 1;
      OrdinarySnoc(queue, Task(false, [kind] + payload));
      queue := queue + [Task(false, [kind] + payload)];
      return Queued;
    }

    /** `sendDiagnostic`: dropped unless the stream is idle. */
    method SendDiagnostic(payload: seq<byte>)
      requires Valid()
      modifies this`diagnosticPending, this`queue
      ensures Valid()
      ensures queue == if old(queue) == [] && !destroyed && |payload| < 32768
              then [Task(true, [IPC_CONTROL] + payload)] else old(queue)
    {
      if pending != 0 || diagnosticPending || destroyed || |payload| + 1 > 32768 {
        return;
      }
      diagnosticPending := true;
      OrdinarySnoc(queue, Task(true, [IPC_CONTROL] + payload));
      queue := queue + [Task(true, [IPC_CONTROL] + payload)];
    }

    /** The frame whose turn it is goes to the stream, or fails because the stream is closed. */
    method Write() returns (written: bool)
      requires Valid() && queue != []
      modifies this
      ensures Valid() && queue == old(queue)[1..] && destroyed == old(destroyed)
      ensures written == !destroyed
      ensures bodies == if written then old(bodies) + [old(queue)[0].body] else old(bodies)
    {
      var task := queue[0];
      queue := queue[1..];
      written := !destroyed;
      if written {
        wire := wire + Encode(task.body);
        EncodeAllSnoc(IpcFormat, bodies, task.body);
        bodies := bodies + [task.body];
      }
      if task.diagnostic {
        diagnosticPending := false;
      } else {
        pending := pending - 1;
      }
    }
  }

  /** Whatever chunks the sender's bytes arrive in, the other side gets exactly the messages written. */
  method Transfer(s: Sender, chunks: seq<seq<byte>>) returns (delivered: seq<Message>, ending: Ending)
    requires s.Valid() && Flatten(chunks) == s.wire
    ensures Encodable(IpcFormat, s.bodies) && delivered == MessagesOf(s.bodies) && ending == Complete
  {
    DecodeOfEncode(IpcFormat, s.bodies);
    delivered, ending := Receive(chunks);
  }
}
