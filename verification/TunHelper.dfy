/** The two packet buffers of the native TUN helper's poll loop. */
module TunHelper {
  import opened Common
  import opened Framing
  import PacketFraming

  const MTU := 1400

  /** What the TUN device may hand over: any packet of 1 to 1400 bytes. */
  const DeviceFormat := Format(1, 1400, false)

  /** Towards the device: what was read is the packets passed on, then the one being gathered in `held`. */
  ghost predicate Inbound(held: seq<byte>, need: nat, read: seq<byte>, toDevice: seq<seq<byte>>) {
    && (need > 2 ==> 2 <= |held| <= need && GoodLength(PacketFormat, need - 2) && held[..2] == LengthBytes(need - 2))
    && if need > 2 && |held| == need then Holds(PacketFormat, read, toDevice + [held[2..]], [])
       else Holds(PacketFormat, read, toDevice, held)
  }

  /** From the device: what was emitted, and what is still in the buffer, are the encoded packets. */
  ghost predicate Outbound(stream: seq<byte>, fromDevice: seq<seq<byte>>) {
    Encodable(DeviceFormat, fromDevice) && stream == EncodeAll(DeviceFormat, fromDevice)
  }

  lemma RefuseLength(before: seq<byte>, toDevice: seq<seq<byte>>, held: seq<byte>, data: seq<byte>)
    requires Holds(PacketFormat, before, toDevice, held)
    requires |held + data| == 2 && !GoodLength(PacketFormat, U16(held + data, 0))
    ensures var p := Scan(PacketFormat, before + data); p.fault == Some(BadLength) && p.frames == toDevice
  {
    TakeFault(PacketFormat, before, toDevice, held, data, BadLength, []);
    assert data + [] == data;
  }

  lemma Progress(before: seq<byte>, toDevice: seq<seq<byte>>, held: seq<byte>, data: seq<byte>, need: nat)
    requires Holds(PacketFormat, before, toDevice, held)
    requires if need > 2
             then 2 <= |held + data| <= need && GoodLength(PacketFormat, need - 2)
                  && (held + data)[..2] == LengthBytes(need - 2)
             else |held + data| < 2
    ensures Inbound(held + data, need, before + data, toDevice)
  {
    if need > 2 {
      var part := (held + data)[2..];
      assert held + data == LengthBytes(need - 2) + part;
      FirstInside(PacketFormat, need - 2, part);
      if |held + data| == need {
        TakeLast(PacketFormat, before, toDevice, held, data, part);
        return;
      }
    }
    TakeMore(PacketFormat, before, toDevice, held, data);
  }

  class Pump {
    const input: array<byte>
    const output: array<byte>
    var inHave: nat
    var inNeed: nat
    var outHave: nat
    var outSent: nat
    ghost var read: seq<byte>           // read from standard input
    ghost var toDevice: seq<seq<byte>>   // written to the TUN device
    ghost var fromDevice: seq<seq<byte>> // read from the TUN device
    ghost var emitted: seq<byte>        // written to standard output

    /** A whole packet waits for the device. */
    predicate Loaded()
      reads this
    {
      inHave == inNeed && inNeed > 2
    }

    ghost predicate Bounded()
      reads this
    {
      && input.Length == output.Length == MTU + 2 && input != output
      && 2 <= inNeed <= MTU + 2 && inHave <= inNeed && (inNeed == 2 ==> inHave < 2)
      && (inNeed > 2 ==> 2 <= inHave && GoodLength(PacketFormat, inNeed - 2))
      && outHave <= MTU + 2 && (outHave == 0 ==> outSent == 0) && (outHave > 0 ==> outSent < outHave)
    }

    ghost predicate InboundValid()
      reads this, input
      requires Bounded()
    {
      Inbound(input[..inHave], inNeed, read, toDevice)
    }

    ghost predicate OutboundValid()
      reads this, output
      requires Bounded()
    {
      Outbound(emitted + output[outSent..outHave], fromDevice)
    }

    ghost predicate Valid()
      reads this, input, output
    {
      Bounded() && InboundValid() && OutboundValid()
    }

    constructor ()
      ensures Valid() && fresh(input) && fresh(output)
      ensures read == [] && toDevice == [] && fromDevice == [] && emitted == []
    {
      input, output := new byte[MTU + 2], new byte[MTU + 2];
      inHave, inNeed, outHave, outSent := 0, 2, 0, 0;
      read, toDevice, fromDevice, emitted := [], [], [], [];
    }

    method FillOutput(packet: seq<byte>)
      requires Valid() && 0 < |packet| <= MTU
      modifies output
      ensures output[0..|packet| + 2] == Encode(packet)
      ensures InboundValid()
    {
      output[0], output[1] := |packet| / 256, |packet| % 256;
      forall i | 0 <= i < |packet| {
        output[2 + i] := packet[i];
      }
    }

    /** The device is polled for reading only while the output buffer is empty. */
    method ReadDevice(packet: seq<byte>)
      requires Valid() && outHave == 0 && 0 < |packet| <= MTU
      modifies this`outHave, this`outSent, this`fromDevice, output
      ensures Valid() && fromDevice == old(fromDevice) + [packet] && outHave > 0
    {
      assert emitted + output[0..0] == emitted;
      FillOutput(packet);
      outHave, outSent := |packet| + 2, 0;
      EncodeAllSnoc(DeviceFormat, fromDevice, packet);
      fromDevice := fromDevice + [packet];
    }

    /** Standard output took `n` bytes of the buffer. */
    method WriteOut(n: nat)
      requires Valid() && outHave > 0 && 0 < n <= outHave - outSent
      modifies this`outHave, this`outSent, this`emitted
      ensures Valid() && fromDevice == old(fromDevice)
      ensures emitted == old(emitted) + output[old(outSent)..old(outSent) + n]
    {
      AddSlice(emitted, output[..], outSent, outSent + n, outHave);
      assert output[..][outSent..outSent + n] == output[outSent..outSent + n];
      assert output[..][outSent + n..outHave] == output[outSent + n..outHave];
      assert output[..][outSent..outHave] == output[outSent..outHave];
      emitted := emitted + output[outSent..outSent + n];
      outSent := outSent + n;
      if outSent == outHave {
        outHave, outSent := 0, 0;
      }
    }

    method Store(data: seq<byte>)
      requires Valid() && |data| <= inNeed - inHave
      modifies input
      ensures input[..inHave + |data|] == old(input[..inHave]) + data
      ensures OutboundValid()
    {
      forall i | 0 <= i < |data| {
        input[inHave + i] := data[i];
      }
    }

    /** As `Bounded`, with the length bytes perhaps just complete and not yet looked at. */
    ghost predicate Filling()
      reads this
    {
      && input.Length == output.Length == MTU + 2 && input != output
      && 2 <= inNeed <= MTU + 2 && inHave <= inNeed
      && (inNeed > 2 ==> 2 <= inHave && GoodLength(PacketFormat, inNeed - 2))
      && outHave <= MTU + 2 && (outHave == 0 ==> outSent == 0) && (outHave > 0 ==> outSent < outHave)
    }

    /** The bytes go behind those already there. */
    method Gather(data: seq<byte>)
      requires Valid() && 0 < |data| <= inNeed - inHave
      modifies this`inHave, input
      ensures Filling() && inHave == old(inHave) + |data|
      ensures input[..inHave] == old(input[..inHave]) + data
      ensures inNeed > 2 ==> input[..2] == LengthBytes(inNeed - 2)
      ensures Outbound(emitted + output[outSent..outHave], fromDevice)
    {
      ghost var held := input[..inHave];
      Store(data);
      inHave := inHave + |data|;
      assert inNeed > 2 ==> input[..2] == (held + data)[..2] == held[..2];
    }

    /** Complete length bytes say how much is needed, or are refused. */
    method LearnLength() returns (bad: bool)
      requires Filling() && (inNeed > 2 ==> input[..2] == LengthBytes(inNeed - 2))
      modifies this`inNeed
      ensures bad <==> inHave == 2 && old(inNeed) == 2 && !GoodLength(PacketFormat, U16(input[..2], 0))
      ensures !bad ==> Bounded() && (inNeed > 2 ==> input[..2] == LengthBytes(inNeed - 2))
    {
      if inHave != 2 || inNeed != 2 { return false; }
      var length := U16(input[..2], 0);
      if length < 20 || length > MTU { return true; }
      inNeed := length + 2;
      assert input[..2] == LengthBytes(length);
      return false;
    }

    /** Standard input delivered some of the bytes still needed; `bad` means the helper exits on the length. */
    method ReadIn(data: seq<byte>) returns (bad: bool)
      requires Valid() && 0 < |data| <= inNeed - inHave
      modifies this`inHave, this`inNeed, this`read, input
      ensures read == old(read) + data
      ensures !bad ==> Valid()
      ensures bad ==> Scan(PacketFormat, read).fault == Some(BadLength) && Scan(PacketFormat, read).frames == toDevice
    {
      ghost var held, before := input[..inHave], read;
      Gather(data);
      read := read + data;
      bad := LearnLength();
      if bad {
        assert held + data == input[..2];
        RefuseLength(before, toDevice, held, data);
      } else {
        assert inNeed > 2 ==> input[..inHave][..2] == input[..2];
        Progress(before, toDevice, held, data, inNeed);
      }
    }

    /** The device took `n` bytes of the loaded packet; `short` means the helper exits on a partial write. */
    method WriteDevice(n: nat) returns (short: bool)
      requires Valid() && Loaded() && n <= inNeed - 2
      modifies this`inHave, this`inNeed, this`toDevice
      ensures short <==> n != old(inNeed) - 2
      ensures !short ==> Valid() && !Loaded() && inHave == 0 && read == old(read)
      ensures !short ==> toDevice == old(toDevice) + [input[2..old(inNeed)]]
      ensures short ==> toDevice == old(toDevice)
    {
      if n != inNeed - 2 {
        return true;
      }
      toDevice := toDevice + [input[2..inNeed]];
      inHave, inNeed := 0, 2;
      assert input[..0] == [];
      short := false;
    }

    /** The packets read so far: passed on, or waiting for the device. */
    ghost function Packets(): seq<seq<byte>>
      requires Bounded()
      reads this, input
    {
      if Loaded() then toDevice + [input[2..inNeed]] else toDevice
    }
  }

  /** The helper and the runtime's reader find the same packets in the same bytes; where the reader reports a
      truncated frame, the helper merely exits with the beginning of a packet in its buffer. */
  method AgreesWithReceive(p: Pump, chunks: seq<seq<byte>>) returns (delivered: seq<seq<byte>>, ending: Ending)
    requires p.Valid() && Flatten(chunks) == p.read
    ensures delivered == p.Packets()
    ensures ending == if p.inHave == 0 || p.Loaded() then Complete else Truncated
  {
    delivered, ending := PacketFraming.Receive(chunks);
  }

  /** What the helper has emitted is a prefix of the encoded packets it read, with nothing lost or reordered; when its
      buffer is empty, the runtime decodes exactly those packets, provided each has the 20 bytes of an IP header. */
  lemma EmittedDecodes(p: Pump)
    requires p.Valid()
    requires p.outHave == 0 && forall i | 0 <= i < |p.fromDevice| :: |p.fromDevice[i]| >= 20
    ensures Scan(PacketFormat, p.emitted) == Parse(p.fromDevice, [], None)
  {
    assert p.emitted + p.output[0..0] == p.emitted;
    assert Encodable(PacketFormat, p.fromDevice);
    SameEncoding(p.fromDevice);
    DecodeOfEncode(PacketFormat, p.fromDevice);
  }

  lemma {:induction false} SameEncoding(packets: seq<seq<byte>>)
    requires Encodable(PacketFormat, packets) && Encodable(DeviceFormat, packets)
    ensures EncodeAll(PacketFormat, packets) == EncodeAll(DeviceFormat, packets)
  {
    if packets != [] {
      SameEncoding(packets[1..]);
    }
  }
}
