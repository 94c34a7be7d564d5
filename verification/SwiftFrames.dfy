/** The same IPC stream, as the macOS provider reads and writes it. */
module SwiftFrames {
  import opened Common
  import opened Framing
  import opened WorkletFraming

  /** `WorkletFrames.encode`; `None` stands for the thrown error. */
  function EncodeMessage(kind: byte, payload: seq<byte>): Option<seq<byte>> {
    if (kind == IPC_CONTROL || kind == IPC_PACKET) && |payload| + 1 <= 32768 then Some(Encode([kind] + payload))
      else None
  }

  lemma EncodeMessageExactly(kind: byte, payload: seq<byte>)
    ensures EncodeMessage(kind, payload).Some? <==> GoodBody(IpcFormat, [kind] + payload)
    ensures EncodeMessage(kind, payload).Some? ==>
              Scan(IpcFormat, EncodeMessage(kind, payload).value) == Parse([[kind] + payload], [], None)
  {
    if EncodeMessage(kind, payload).Some? {
      var bodies := [[kind] + payload];
      DecodeOfEncode(IpcFormat, bodies);
      assert bodies[1..] == [];
      assert Encode(bodies[0]) + [] == Encode(bodies[0]);
    }
  }

  /** The mutating decoder. */
  class Frames {
    var header: seq<byte>
    var expectedLength: Option<nat>
    var body: seq<byte>
    ghost var seen: seq<byte>        // every byte appended so far
    ghost var frames: seq<seq<byte>>  // every frame delivered so far

    /** The bytes held of the frame being read. */
    ghost function Held(): seq<byte>
      reads this
    {
      if expectedLength.Some? && expectedLength.value < 0x1_0000 then LengthBytes(expectedLength.value) + body
        else header
    }

    ghost predicate Ready()
      reads this
    {
      && |header| < 2
      && (expectedLength.Some? ==>
            header == [] && |body| < expectedLength.value && GoodLength(IpcFormat, expectedLength.value))
    }

    ghost predicate Valid()
      reads this
    {
      Ready() && Holds(IpcFormat, seen, frames, Held())
    }

    constructor ()
      ensures Valid() && seen == [] && frames == []
    {
      header, expectedLength, body, seen, frames := [], None, [], [], [];
    }

    /** The header part of one turn of `append`. */
    method TakeHeader(byte: byte) returns (turn: Turn)
      requires Ready() && expectedLength.None?
      modifies this`header, this`expectedLength, this`body
      ensures !turn.Full?
      ensures turn.More? ==> |header| < 2 && Held() == old(Held()) + [byte]
      ensures turn.More? && expectedLength.Some? ==>
                header == [] && body == [] && GoodLength(IpcFormat, expectedLength.value)
      ensures turn.LengthRefused? ==> First(IpcFormat, old(Held()) + [byte]) == Bad(BadLength)
    {
      header := header + [byte];
      if |header| < 2 { return More; }
      var length := U16(header, 0);
      if length == 0 || length > 32768 { return LengthRefused; }
      assert LengthBytes(length) + [] == header;
      expectedLength := Some(length);
      header := [];
      body := [];
      return More;
    }

    /** The body part of one turn. */
    method TakeBody(bytes: seq<byte>, index: nat) returns (next: nat, turn: Turn)
      requires expectedLength.Some? && header == [] && |body| < expectedLength.value
               && GoodLength(IpcFormat, expectedLength.value)
      requires index <= |bytes|
      modifies this`expectedLength, this`body
      ensures index <= next <= |bytes| && (index < |bytes| ==> index < next) && Ready()
      ensures Came(IpcFormat, old(Held()), bytes[index..next], turn, Held())
    {
      var length := expectedLength.value;
      var count := Min(length - |body|, |bytes| - index);
      ghost var part := body;
      next := index + count;
      body := body + bytes[index..next];
      assert (LengthBytes(length) + part) + bytes[index..next] == LengthBytes(length) + body;
      FirstInside(IpcFormat, length, body);
      if |body| == length {
        expectedLength := None;
        return next, Full(body);
      }
      return next, More;
    }

    /** One turn of `append`'s loop. */
    method Take(bytes: seq<byte>, index: nat) returns (next: nat, turn: Turn)
      requires Ready() && index < |bytes|
      modifies this`header, this`expectedLength, this`body
      ensures index < next <= |bytes|
      ensures !turn.LengthRefused? ==> Ready()
      ensures Came(IpcFormat, old(Held()), bytes[index..next], turn, if turn.LengthRefused? then [] else Held())
    {
      next := index;
      ghost var held := Held();
      if expectedLength.None? {
        turn := TakeHeader(bytes[index]);
        next := index + 1;
        assert bytes[index..next] == [bytes[index]];
        if turn.LengthRefused? || expectedLength.None? { return next, turn; }
      }
      ghost var middle := next;
      AddSlice(held, bytes, index, index, middle);
      next, turn := TakeBody(bytes, next);
      AddSlice(held, bytes, index, middle, next);
    }

    /** `append(bytes, deliver)`: the messages it delivers, and the error it throws, if any. */
    method Append(bytes: seq<byte>)
        returns (delivered: seq<Message>, fault: Option<Fault>, ghost bodies: seq<seq<byte>>)
      requires Valid()
      modifies this
      ensures seen == old(seen) + bytes
      ensures fault.None? ==> Valid()
      ensures fault.Some? ==> Scan(IpcFormat, seen).fault == fault && Scan(IpcFormat, seen).frames == frames
      ensures Encodable(IpcFormat, bodies) && frames == old(frames) + bodies && delivered == MessagesOf(bodies)
    {
      bodies, delivered := [], [];
      ghost var before := seen;
      var index := 0;
      assert before + bytes[..0] == before && old(frames) + [] == old(frames);
      while index < |bytes|
        invariant 0 <= index <= |bytes| && seen == before
        invariant Encodable(IpcFormat, bodies) && frames == old(frames) + bodies && delivered == MessagesOf(bodies)
        invariant Ready() && Holds(IpcFormat, before + bytes[..index], frames, Held())
      {
        ghost var held := Held();
        var next, turn := Take(bytes, index);
        CutChunk(before, bytes, index, next);
        TakeTurn(IpcFormat, before + bytes[..index], bytes[index..next], bytes[next..], frames, held, turn,
                 if turn.LengthRefused? then [] else Held());
        index := next;
        if turn.LengthRefused? {
          seen := before + bytes;
          return delivered, Some(BadLength), bodies;
        }
        if turn.Full? {
          if turn.body[0] != IPC_CONTROL && turn.body[0] != IPC_PACKET {
            seen := before + bytes;
            return delivered, Some(BadKind), bodies;
          }
          OneMoreMessage(bodies, turn.body);
          delivered := delivered + [Message(turn.body[0], turn.body[1..])];
          bodies := bodies + [turn.body];
          frames := frames + [turn.body];
        }
      }
      assert bytes[..|bytes|] == bytes;
      seen := before + bytes;
      return delivered, None, bodies;
    }

    /** `finish`: whether the stream may end here. */
    method Finish() returns (complete: bool)
      requires Valid()
      ensures complete <==> EndingOf(Scan(IpcFormat, seen)) == Complete
    {
      complete := header == [] && expectedLength.None?;
    }
  }

  lemma OneMoreMessage(bodies: seq<seq<byte>>, body: seq<byte>)
    requires Encodable(IpcFormat, bodies) && GoodBody(IpcFormat, body)
    ensures Encodable(IpcFormat, bodies + [body])
    ensures MessagesOf(bodies + [body]) == MessagesOf(bodies) + [Message(body[0], body[1..])]
  {
  }

  lemma MessagesOfBoth(a: seq<seq<byte>>, b: seq<seq<byte>>)
    requires Encodable(IpcFormat, a) && Encodable(IpcFormat, b)
    ensures Encodable(IpcFormat, a + b) && MessagesOf(a + b) == MessagesOf(a) + MessagesOf(b)
  {
  }

  /** The provider's whole reading of a stream given by its chunks. */
  method ReceiveSwift(chunks: seq<seq<byte>>) returns (delivered: seq<Message>, ending: Ending)
    ensures var p := Scan(IpcFormat, Flatten(chunks));
            Encodable(IpcFormat, p.frames) && delivered == MessagesOf(p.frames) && ending == EndingOf(p)
  {
    var decoder := new Frames();
    delivered := [];
    EncodeOfDecode(IpcFormat, Flatten(chunks));
    assert MessagesOf([]) == [];
    for n := 0 to |chunks|
      invariant decoder.Valid() && fresh(decoder) && decoder.seen == Flatten(chunks[..n])
      invariant Encodable(IpcFormat, decoder.frames) && delivered == MessagesOf(decoder.frames)
    {
      ghost var earlier := decoder.frames;
      var more, fault, bodies := decoder.Append(chunks[n]);
      FlattenSnoc(chunks, n);
      MessagesOfBoth(earlier, bodies);
      delivered := delivered + more;
      if fault.Some? {
        FaultIsFinal(IpcFormat, chunks, n + 1);
        return delivered, Broken(fault.value);
      }
    }
    assert chunks[..|chunks|] == chunks;
    var complete := decoder.Finish();
    ending := if complete then Complete else Truncated;
  }

  /** The runtime and the provider read the same bytes alike, however each of them got its chunks. */
  method DecodersAgree(a: seq<seq<byte>>, b: seq<seq<byte>>)
      returns (runtime: seq<Message>, provider: seq<Message>, end: Ending, end': Ending)
    requires Flatten(a) == Flatten(b)
    ensures runtime == provider && end == end'
    ensures end.Complete? ==>
              Encodable(IpcFormat, BodiesOf(runtime)) && Flatten(a) == EncodeAll(IpcFormat, BodiesOf(runtime))
  {
    runtime, end := WorkletFraming.Receive(a);
    provider, end' := ReceiveSwift(b);
    ghost var p := Scan(IpcFormat, Flatten(a));
    EncodeOfDecode(IpcFormat, Flatten(a));
    BodiesOfMessages(p.frames);
    if end.Complete? {
      assert EncodeAll(IpcFormat, p.frames) + [] == EncodeAll(IpcFormat, p.frames);
    }
  }
}
