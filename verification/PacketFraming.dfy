/** The packet streams between peers, and between the runtime and the TUN helper. */
module PacketFraming {
  import opened Common
  import opened Framing

  /** The body of `receive`'s loop over chunks; `before` is everything earlier chunks held. */
  method ReceiveChunk(buffer: FrameBuffer, chunk: seq<byte>, delivered: seq<seq<byte>>, ghost before: seq<byte>)
    returns (now: seq<seq<byte>>, fault: Option<Fault>)
    requires buffer.Valid() && buffer.format == PacketFormat && Holds(PacketFormat, before, delivered, buffer.Held())
    modifies buffer, buffer.header, buffer.frame
    ensures buffer.frame == null || buffer.frame == old(buffer.frame) || fresh(buffer.frame)
    ensures fault.None? ==> buffer.Valid() && Holds(PacketFormat, before + chunk, now, buffer.Held())
    ensures fault.Some? ==> var p := Scan(PacketFormat, before + chunk); p.frames == now && p.fault == fault
  {
    now := delivered;
    var offset := 0;
    assert before + chunk[..0] == before;
    while offset < |chunk|
      invariant 0 <= offset <= |chunk|
      invariant buffer.frame == null || buffer.frame == old(buffer.frame) || fresh(buffer.frame)
      invariant buffer.Valid() && Holds(PacketFormat, before + chunk[..offset], now, buffer.Held())
    {
      ghost var held := buffer.Held();
      var next, turn := buffer.Take(chunk, offset);
      CutChunk(before, chunk, offset, next);
      TakeTurn(PacketFormat, before + chunk[..offset], chunk[offset..next], chunk[next..], now, held, turn,
               if turn.LengthRefused? then [] else buffer.Held());
      offset := next;
      if turn.LengthRefused? {
        return now, Some(BadLength);
      }
      if turn.Full? {
        now := now + [turn.body];
      }
    }
    assert chunk[..|chunk|] == chunk;
    fault := None;
  }

  /** `receive`, on a stream given by its chunks: the packets delivered and how it ended. */
  method Receive(chunks: seq<seq<byte>>) returns (delivered: seq<seq<byte>>, ending: Ending)
    ensures var p := Scan(PacketFormat, Flatten(chunks)); delivered == p.frames && ending == EndingOf(p)
  {
    var buffer := new FrameBuffer(PacketFormat);
    delivered := [];
    for n := 0 to |chunks|
      invariant buffer.Valid() && fresh(buffer) && fresh(buffer.header)
                && (buffer.frame != null ==> fresh(buffer.frame))
      invariant buffer.format == PacketFormat
      invariant Holds(PacketFormat, Flatten(chunks[..n]), delivered, buffer.Held())
    {
      var fault;
      delivered, fault := ReceiveChunk(buffer, chunks[n], delivered, Flatten(chunks[..n]));
      FlattenSnoc(chunks, n);
      if fault.Some? {
        FaultIsFinal(PacketFormat, chunks, n + 1);
        return delivered, Broken(fault.value);
      }
    }
    assert chunks[..|chunks|] == chunks;
    ending := if buffer.Empty() then Complete else Truncated;
  }

  datatype SendResult = Sent | Waiting | InvalidLength | Concurrent | StreamClosed

  /** The writing half: one packet at a time. */
  class Sender {
    var writing: bool
    var destroyed: bool
    var wire: seq<byte>              // everything the writable has been given
    ghost var packets: seq<seq<byte>>  // the packets accepted so far

    ghost predicate Valid()
      reads this
    {
      Encodable(PacketFormat, packets) && wire == EncodeAll(PacketFormat, packets)
    }

    constructor ()
      ensures Valid() && wire == [] && packets == [] && !writing && !destroyed
    {
      writing, destroyed, wire, packets := false, false, [], [];
    }

    /** `send` up to the wait for the writable to drain; `drained` is what its `write` returns. */
    method Send(packet: seq<byte>, drained: bool) returns (r: SendResult)
      requires Valid()
      modifies this
      ensures Valid() && destroyed == old(destroyed)
      ensures r == if !GoodLength(PacketFormat, |packet|) then InvalidLength
                   else if old(writing) then Concurrent
                   else if old(destroyed) then StreamClosed
                   else if drained then Sent else Waiting
      ensures r.Sent? || r.Waiting? ==> packets == old(packets) + [packet] && wire == old(wire) + Encode(packet)
      ensures !(r.Sent? || r.Waiting?) ==> packets == old(packets) && wire == old(wire)
      ensures writing == if r.Sent? || r.Waiting? then r.Waiting? else old(writing)
    {
      if |packet| < 20 || |packet| > 1400 { return InvalidLength; }
      if writing { return Concurrent; }
      if destroyed { return StreamClosed; }
      writing := true;
      wire := wire + Encode(packet);
      EncodeAllSnoc(PacketFormat, packets, packet);
      packets := packets + [packet];
      if drained {
        writing := false;
        return Sent;
      }
      return Waiting;
    }

    /** The wait ends: the writable drained, closed or failed. */
    method Settle(closed: bool)
      requires Valid() && writing
      modifies this`writing, this`destroyed
      ensures Valid() && !writing && destroyed == (old(destroyed) || closed)
    {
      writing := false;
      destroyed := destroyed || closed;
    }
  }

  /** Whatever chunks the sender's bytes arrive in, the receiver delivers exactly the packets sent, and ends cleanly. */
  method Transfer(s: Sender, chunks: seq<seq<byte>>) returns (delivered: seq<seq<byte>>, ending: Ending)
    requires s.Valid() && Flatten(chunks) == s.wire
    ensures delivered == s.packets && ending == Complete
  {
    delivered, ending := Receive(chunks);
    DecodeOfEncode(PacketFormat, s.packets);
  }
}
