/** Length-prefixed frames: what a byte stream means, independent of how it is cut into chunks. */
module Framing {
  import opened Common

  /** Bounds on the 16-bit length, and whether the first body byte is a kind that must be 1 or 2. */
  datatype Format = Format(minimum: nat, maximum: nat, kinds: bool)

  /** The peer protocol and the TUN helper's pipes. */
  const PacketFormat := Format(20, 1400, false)

  /** The provider/worklet IPC. */
  const IpcFormat := Format(1, 32768, true)

  const IPC_CONTROL: byte := 1
  const IPC_PACKET: byte := 2

  predicate GoodLength(format: Format, length: nat) {
    format.minimum <= length <= format.maximum
  }

  predicate GoodBody(format: Format, body: seq<byte>) {
    GoodLength(format, |body|) && (format.kinds ==> |body| > 0 && (body[0] == IPC_CONTROL || body[0] == IPC_PACKET))
  }

  datatype Fault = BadLength | BadKind

  /** The frames found, the bytes that begin a frame not complete yet, and the error that stopped the reading, if
      any. */
  datatype Parse = Parse(frames: seq<seq<byte>>, rest: seq<byte>, fault: Option<Fault>)

  datatype Head = Unfinished | Bad(fault: Fault) | Whole(body: seq<byte>)

  /** What a byte string begins with. */
  function First(format: Format, b: seq<byte>): (h: Head)
    ensures h.Whole? ==> |b| >= 2 + |h.body|
  {
    if |b| < 2 then Unfinished
    else
      var length := U16(b, 0);
      if !GoodLength(format, length) then Bad(BadLength)
      else if |b| < 2 + length then Unfinished
      else if !GoodBody(format, b[2..2 + length]) then Bad(BadKind)
      else Whole(b[2..2 + length])
  }

  /** The greedy reading of a byte string. */
  function Scan(format: Format, b: seq<byte>): (p: Parse)
    decreases |b|
  {
    match First(format, b)
    case Unfinished => Parse([], b, None)
    case Bad(fault) => Parse([], b, Some(fault))
    case Whole(body) =>
      var more := Scan(format, b[2 + |body|..]);
      more.(frames := [body] + more.frames)
  }

  datatype Ending = Complete | Truncated | Broken(fault: Fault)

  /** How a whole stream ends. */
  function EndingOf(p: Parse): Ending {
    if p.fault.Some? then Broken(p.fault.value) else if p.rest == [] then Complete else Truncated
  }

  /** The frame that carries a body. */
  function Encode(body: seq<byte>): (frame: seq<byte>)
    requires |body| < 0x1_0000
  {
    [(|body| / 256) as byte, (|body| % 256) as byte] + body
  }

  predicate Encodable(format: Format, bodies: seq<seq<byte>>) {
    format.maximum < 0x1_0000 && forall i | 0 <= i < |bodies| :: GoodBody(format, bodies[i])
  }

  function EncodeAll(format: Format, bodies: seq<seq<byte>>): seq<byte>
    requires Encodable(format, bodies)
  {
    if bodies == [] then [] else Encode(bodies[0]) + EncodeAll(format, bodies[1..])
  }

  function Flatten(chunks: seq<seq<byte>>): seq<byte> {
    if chunks == [] then [] else Flatten(chunks[..|chunks| - 1]) + chunks[|chunks| - 1]
  }

  lemma FirstExtends(format: Format, a: seq<byte>, b: seq<byte>)
    ensures First(format, a).Whole? ==>
              var n := 2 + |First(format, a).body|;
              First(format, a + b) == First(format, a) && (a + b)[n..] == a[n..] + b
    ensures First(format, a).Bad? ==> First(format, a + b) == First(format, a)
  {
    if |a| >= 2 {
      assert U16(a + b, 0) == U16(a, 0);
      if |a| >= 2 + U16(a, 0) {
        assert (a + b)[2..2 + U16(a, 0)] == a[2..2 + U16(a, 0)];
      }
    }
  }

  lemma ScanWhole(format: Format, b: seq<byte>, body: seq<byte>)
    requires First(format, b) == Whole(body)
    ensures Scan(format, b) == Scan(format, b[2 + |body|..]).(frames := [body] + Scan(format, b[2 + |body|..]).frames)
  {
  }

  /** Putting frame `body` in front of a parse. */
  function Prepend(body: seq<byte>, p: Parse): Parse {
    p.(frames := [body] + p.frames)
  }

  /** The parse `p` of some bytes, continued with the parse of its rest and the bytes that follow. */
  function Continue(format: Format, p: Parse, b: seq<byte>): Parse {
    if p.fault.Some? then p.(rest := p.rest + b)
    else
      var q := Scan(format, p.rest + b);
      Parse(p.frames + q.frames, q.rest, q.fault)
  }

  lemma ContinuePrepend(format: Format, body: seq<byte>, p: Parse, b: seq<byte>)
    ensures Continue(format, Prepend(body, p), b) == Prepend(body, Continue(format, p, b))
  {
    if p.fault.None? {
      var q := Scan(format, p.rest + b);
      assert ([body] + p.frames) + q.frames == [body] + (p.frames + q.frames);
    }
  }

  /** Reading more bytes continues from the unfinished rest: the parse of a concatenation is the parse of its parts. */
  lemma {:induction false} ScanContinues(format: Format, a: seq<byte>, b: seq<byte>)
    ensures Scan(format, a + b) == Continue(format, Scan(format, a), b)
    decreases |a|
  {
    FirstExtends(format, a, b);
    var h := First(format, a);
    if h.Whole? {
      var tail := a[2 + |h.body|..];
      ScanContinues(format, tail, b);
      ContinuePrepend(format, h.body, Scan(format, tail), b);
    } else if h.Unfinished? {
      var q := Scan(format, a + b);
      assert [] + q.frames == q.frames;
    }
  }

  lemma FirstOfEncode(format: Format, body: seq<byte>, tail: seq<byte>)
    requires GoodBody(format, body) && |body| < 0x1_0000
    ensures First(format, Encode(body) + tail) == Whole(body)
    ensures (Encode(body) + tail)[2 + |body|..] == tail
  {
    var b := Encode(body) + tail;
    assert U16(b, 0) == |body|;
    assert b[2..2 + |body|] == body;
  }

  /** Decoding the concatenated encodings returns the originals and ends cleanly. */
  lemma {:induction false} DecodeOfEncode(format: Format, bodies: seq<seq<byte>>)
    requires Encodable(format, bodies)
    ensures Scan(format, EncodeAll(format, bodies)) == Parse(bodies, [], None)
  {
    if bodies != [] {
      DecodeOfEncode(format, bodies[1..]);
      FirstOfEncode(format, bodies[0], EncodeAll(format, bodies[1..]));
      assert [bodies[0]] + bodies[1..] == bodies;
    }
  }

  lemma EncodeOfFirst(format: Format, b: seq<byte>)
    requires First(format, b).Whole?
    ensures GoodBody(format, First(format, b).body) && |First(format, b).body| < 0x1_0000
    ensures b == Encode(First(format, b).body) + b[2 + |First(format, b).body|..]
  {
    assert b[0] == U16(b, 0) / 256 && b[1] == U16(b, 0) % 256;
  }

  /** Conversely, what a stream contains is exactly the encoding of its frames, then the unfinished rest. */
  lemma {:induction false} EncodeOfDecode(format: Format, b: seq<byte>)
    requires format.maximum < 0x1_0000
    ensures Encodable(format, Scan(format, b).frames)
    ensures b == EncodeAll(format, Scan(format, b).frames) + Scan(format, b).rest
    decreases |b|
  {
    var h := First(format, b);
    if h.Whole? {
      var tail := b[2 + |h.body|..];
      EncodeOfDecode(format, tail);
      EncodeOfFirst(format, b);
      var more := Scan(format, tail);
      EncodeAllCons(format, h.body, more.frames);
    }
  }

  lemma {:induction false} EncodeAllSnoc(format: Format, bodies: seq<seq<byte>>, body: seq<byte>)
    requires Encodable(format, bodies) && GoodBody(format, body)
    ensures Encodable(format, bodies + [body])
    ensures EncodeAll(format, bodies + [body]) == EncodeAll(format, bodies) + Encode(body)
  {
    var all := bodies + [body];
    if bodies == [] {
      assert all[1..] == [];
    } else {
      assert all[1..] == bodies[1..] + [body];
      EncodeAllSnoc(format, bodies[1..], body);
    }
  }

  lemma EncodeAllCons(format: Format, body: seq<byte>, bodies: seq<seq<byte>>)
    requires Encodable(format, bodies) && GoodBody(format, body)
    ensures Encodable(format, [body] + bodies)
    ensures EncodeAll(format, [body] + bodies) == Encode(body) + EncodeAll(format, bodies)
  {
    assert ([body] + bodies)[1..] == bodies;
  }

  /** A stream that stops inside a frame is truncated, and one that stops between frames is complete. */
  lemma CutStreamIsTruncated(format: Format, bodies: seq<seq<byte>>, body: seq<byte>, n: nat)
    requires Encodable(format, bodies) && GoodBody(format, body) && n < |Encode(body)|
    ensures var p := Scan(format, EncodeAll(format, bodies) + Encode(body)[..n]);
            p == Parse(bodies, Encode(body)[..n], None) && (EndingOf(p) == Truncated <==> n > 0)
  {
    DecodeOfEncode(format, bodies);
    var cut := Encode(body)[..n];
    ScanContinues(format, EncodeAll(format, bodies), cut);
    assert [] + cut == cut;
    assert n >= 2 ==> U16(cut, 0) == |body|;
  }

  /** Two bytes say how long the body is, the more significant one first, and then comes the body: on the peer's stream
      20 to 1400 bytes are a packet, on the IPC 1 to 32768 bytes that begin with 1 or 2 are a message; nothing else
      is. */
  lemma OneFrameExactly(body: seq<byte>)
    requires |body| < 0x1_0000
    ensures var b := [|body| / 256, |body| % 256] + body;
            && Scan(PacketFormat, b) == (if 20 <= |body| <= 1400 then Parse([body], [], None)
                                         else Parse([], b, Some(BadLength)))
            && Scan(IpcFormat, b) == (if !(1 <= |body| <= 32768) then Parse([], b, Some(BadLength))
                                      else if body[0] == 1 || body[0] == 2 then Parse([body], [], None)
                                      else Parse([], b, Some(BadKind)))
  {
    var b: seq<byte> := [|body| / 256, |body| % 256] + body;
    assert U16(b, 0) == |body| && b[2..2 + |body|] == body && b[2 + |body|..] == [];
  }

  lemma FlattenSnoc(chunks: seq<seq<byte>>, n: nat)
    requires n < |chunks|
    ensures Flatten(chunks[..n + 1]) == Flatten(chunks[..n]) + chunks[n]
  {
    assert chunks[..n + 1][..n] == chunks[..n];
  }

  // ---- What an incremental decoder needs ----

  /** The two length bytes of a frame. */
  function LengthBytes(n: nat): (b: seq<byte>)
    requires n < 0x1_0000
    ensures |b| == 2 && U16(b, 0) == n
  {
    [n / 256, n % 256]
  }

  /** After the bytes `seen` a decoder has delivered `frames` and holds the beginning `pending` of the next frame. */
  ghost predicate Holds(format: Format, seen: seq<byte>, frames: seq<seq<byte>>, pending: seq<byte>) {
    Scan(format, seen) == Parse(frames, pending, None)
  }

  /** The decoder may take `x` more bytes when that leaves it inside the same frame. */
  lemma TakeMore(format: Format, seen: seq<byte>, frames: seq<seq<byte>>, pending: seq<byte>, x: seq<byte>)
    requires Holds(format, seen, frames, pending) && First(format, pending + x).Unfinished?
    ensures Holds(format, seen + x, frames, pending + x)
  {
    ScanContinues(format, seen, x);
    assert frames + [] == frames;
  }

  /** Taking exactly the missing bytes of a frame delivers it. */
  lemma TakeLast(format: Format, seen: seq<byte>, frames: seq<seq<byte>>, pending: seq<byte>, x: seq<byte>,
                 body: seq<byte>)
    requires Holds(format, seen, frames, pending)
    requires First(format, pending + x) == Whole(body) && |pending + x| == 2 + |body|
    ensures Holds(format, seen + x, frames + [body], [])
  {
    ScanContinues(format, seen, x);
    assert (pending + x)[2 + |body|..] == [];
    ScanWhole(format, pending + x, body);
  }

  /** A fault shows as soon as its bytes are there, and later bytes change nothing. */
  lemma TakeFault(format: Format, seen: seq<byte>, frames: seq<seq<byte>>, pending: seq<byte>, x: seq<byte>,
                  fault: Fault, later: seq<byte>)
    requires Holds(format, seen, frames, pending) && First(format, pending + x) == Bad(fault)
    ensures var p := Scan(format, seen + (x + later)); p.frames == frames && p.fault == Some(fault)
  {
    assert seen + (x + later) == seen + x + later;
    ScanContinues(format, seen, x);
    ScanContinues(format, seen + x, later);
    assert frames + [] == frames;
  }

  /** What a decoder holds inside a frame of known length. */
  lemma FirstInside(format: Format, n: nat, part: seq<byte>)
    requires GoodLength(format, n) && n < 0x1_0000 && |part| <= n
    ensures |part| < n ==> First(format, LengthBytes(n) + part).Unfinished?
    ensures |part| == n
            ==> First(format, LengthBytes(n) + part) == if GoodBody(format, part) then Whole(part) else Bad(BadKind)
  {
    var b := LengthBytes(n) + part;
    assert U16(b, 0) == n;
    if |part| == n {
      assert b[2..2 + n] == part;
    }
  }

  /** A parse with a fault is not changed by what follows. */
  lemma FaultIsFinal(format: Format, chunks: seq<seq<byte>>, n: nat)
    requires n <= |chunks| && Scan(format, Flatten(chunks[..n])).fault.Some?
    ensures var p, q := Scan(format, Flatten(chunks[..n])), Scan(format, Flatten(chunks));
            q.frames == p.frames && q.fault == p.fault
    decreases |chunks| - n
  {
    if n < |chunks| {
      FlattenSnoc(chunks, n);
      ScanContinues(format, Flatten(chunks[..n]), chunks[n]);
      FaultIsFinal(format, chunks, n + 1);
    } else {
      assert chunks[..n] == chunks;
    }
  }

  // ---- The buffers of the two TypeScript decoders ----

  /** `chunk.copy(target, at, from, to)` */
  method Copy(chunk: seq<byte>, target: array<byte>, at: nat, from: nat, to: nat)
    requires from <= to <= |chunk| && at + (to - from) <= target.Length
    modifies target
    ensures target[..at + (to - from)] == old(target[..at]) + chunk[from..to]
  {
    forall i | 0 <= i < to - from {
      target[at + i] := chunk[from + i];
    }
  }

  function Min(a: nat, b: nat): nat {
    if a < b then a else b
  }

  /** What one turn of a decoder's inner loop came to. */
  datatype Turn = More | LengthRefused | Full(body: seq<byte>)

  lemma AddSlice(held: seq<byte>, chunk: seq<byte>, a: nat, b: nat, c: nat)
    requires a <= b <= c <= |chunk|
    ensures held + chunk[a..b] + chunk[b..c] == held + chunk[a..c]
    ensures held + chunk[a..a] == held
  {
    assert chunk[a..b] + chunk[b..c] == chunk[a..c];
  }

  /** The header and frame buffers that both decoders keep across chunks. */
  class FrameBuffer {
    const format: Format
    const header: array<byte>
    var headerBytes: nat
    var frame: array?<byte>
    var frameBytes: nat

    ghost predicate Valid()
      reads this
    {
      && header.Length == 2 && headerBytes < 2 && 0 < format.minimum && format.maximum < 0x1_0000
      && (frame != null
          ==> headerBytes == 0 && frame != header && GoodLength(format, frame.Length) && frameBytes < frame.Length)
    }

    /** The bytes held of the frame being read. */
    ghost function Held(): seq<byte>
      requires Valid()
      reads this, header, frame
    {
      if frame == null then header[..headerBytes] else LengthBytes(frame.Length) + frame[..frameBytes]
    }

    predicate Empty()
      reads this
    {
      headerBytes == 0 && frame == null
    }

    constructor (format: Format)
      requires 0 < format.minimum && format.maximum < 0x1_0000
      ensures Valid() && Held() == [] && frame == null && fresh(header) && this.format == format
    {
      this.format := format;
      header := new byte[2];
      headerBytes, frame, frameBytes := 0, null, 0;
    }

    /** The header half of a turn. */
    method TakeHeader(chunk: seq<byte>, offset: nat) returns (next: nat, turn: Turn)
      requires Valid() && frame == null && offset < |chunk|
      modifies this, header
      ensures offset < next <= |chunk| && !turn.Full?
      ensures turn.LengthRefused? ==> First(format, old(Held()) + chunk[offset..next]) == Bad(BadLength)
      ensures frame == null || fresh(frame)
      ensures turn.More? ==> Valid() && Held() == old(Held()) + chunk[offset..next]
      ensures turn.More? && frame == null ==> next == |chunk| && |Held()| < 2
    {
      var size := Min(2 - headerBytes, |chunk| - offset);
      Copy(chunk, header, headerBytes, offset, offset + size);
      next := offset + size;
      headerBytes := headerBytes + size;
      turn := More;
      if headerBytes == 2 {
        var length := U16(header[..], 0);
        assert header[..2] == header[..];
        if !GoodLength(format, length) {
          return next, LengthRefused;
        }
        headerBytes := 0;
        frame := new byte[length];
        frameBytes := 0;
        assert LengthBytes(length) + frame[..0] == header[..];
      }
    }

    /** The body half of a turn. */
    method TakeBody(chunk: seq<byte>, offset: nat) returns (next: nat, turn: Turn)
      requires Valid() && frame != null && offset <= |chunk|
      modifies this, frame
      ensures offset <= next <= |chunk| && (offset < |chunk| ==> offset < next)
      ensures Valid() && !turn.LengthRefused? && (frame == null || frame == old(frame))
      ensures turn.More? ==> frame != null && Held() == old(Held()) + chunk[offset..next]
      ensures turn.Full? ==>
                && GoodLength(format, |turn.body|) && frame == null && Held() == []
                && old(Held()) + chunk[offset..next] == LengthBytes(|turn.body|) + turn.body
    {
      var f := frame;
      var size := Min(f.Length - frameBytes, |chunk| - offset);
      next := offset + size;
      ghost var part, x := f[..frameBytes], chunk[offset..next];
      Copy(chunk, f, frameBytes, offset, next);
      frameBytes := frameBytes + size;
      assert f[..frameBytes] == part + x;
      assert (LengthBytes(f.Length) + part) + x == LengthBytes(f.Length) + (part + x);
      if frameBytes == f.Length {
        assert f[..frameBytes] == f[..];
        turn := Full(f[..]);
        frame := null;
        assert header[..0] == [];
      } else {
        turn := More;
      }
    }

    /** One turn of the inner loop. */
    method Take(chunk: seq<byte>, offset: nat) returns (next: nat, turn: Turn)
      requires Valid() && offset < |chunk|
      modifies this, header, frame
      ensures offset < next <= |chunk| && (frame == null || frame == old(frame) || fresh(frame))
      ensures !turn.LengthRefused? ==> Valid()
      ensures Came(format, old(Held()), chunk[offset..next], turn, if turn.LengthRefused? then [] else Held())
    {
      next := offset;
      ghost var held := Held();
      if frame == null {
        next, turn := TakeHeader(chunk, offset);
        if turn.LengthRefused? { return; }
        if frame == null {
          HeldIsUnfinished();
          return;
        }
      }
      ghost var middle := next;
      AddSlice(held, chunk, offset, offset, middle);
      next, turn := TakeBody(chunk, next);
      AddSlice(held, chunk, offset, middle, next);
      if turn.More? {
        HeldIsUnfinished();
      }
    }

    lemma HeldIsUnfinished()
      requires Valid()
      ensures First(format, Held()).Unfinished?
    {
      if frame != null {
        FirstInside(format, frame.Length, frame[..frameBytes]);
      }
    }
  }

  /** What a turn that took `x` means for the bytes held. */
  ghost predicate Came(format: Format, held: seq<byte>, x: seq<byte>, turn: Turn, after: seq<byte>) {
    match turn
    case LengthRefused => First(format, held + x) == Bad(BadLength)
    case More => after == held + x && First(format, after).Unfinished?
    case Full(body) =>
      after == [] && |body| < 0x1_0000 && GoodLength(format, |body|) && held + x == LengthBytes(|body|) + body
  }

  /** How a turn moves the parse of everything seen. */
  lemma TakeTurn(format: Format, seen: seq<byte>, x: seq<byte>, later: seq<byte>,
                 frames: seq<seq<byte>>, held: seq<byte>, turn: Turn, after: seq<byte>)
    requires Holds(format, seen, frames, held) && Came(format, held, x, turn, after)
    ensures turn.More? ==> Holds(format, seen + x, frames, after)
    ensures turn.Full? && GoodBody(format, turn.body) ==> Holds(format, seen + x, frames + [turn.body], after)
    ensures turn.LengthRefused?
            ==> var p := Scan(format, seen + (x + later)); p.frames == frames && p.fault == Some(BadLength)
    ensures turn.Full? && !GoodBody(format, turn.body) ==>
              var p := Scan(format, seen + (x + later)); p.frames == frames && p.fault == Some(BadKind)
  {
    match turn
    case LengthRefused => TakeFault(format, seen, frames, held, x, BadLength, later);
    case More => TakeMore(format, seen, frames, held, x);
    case Full(body) => TakeFull(format, seen, frames, held, x, body, later);
  }

  lemma CutChunk(before: seq<byte>, chunk: seq<byte>, offset: nat, next: nat)
    requires offset <= next <= |chunk|
    ensures (before + chunk[..offset]) + chunk[offset..next] == before + chunk[..next]
    ensures (before + chunk[..offset]) + (chunk[offset..next] + chunk[next..]) == before + chunk
  {
  }

  lemma TakeFull(format: Format, seen: seq<byte>, frames: seq<seq<byte>>, held: seq<byte>, x: seq<byte>,
                 body: seq<byte>, later: seq<byte>)
    requires Holds(format, seen, frames, held)
    requires |body| < 0x1_0000 && GoodLength(format, |body|) && held + x == LengthBytes(|body|) + body
    ensures GoodBody(format, body) ==> Holds(format, seen + x, frames + [body], [])
    ensures !GoodBody(format, body)
            ==> var p := Scan(format, seen + (x + later)); p.frames == frames && p.fault == Some(BadKind)
  {
    FirstInside(format, |body|, body);
    if GoodBody(format, body) {
      TakeLast(format, seen, frames, held, x, body);
    } else {
      TakeFault(format, seen, frames, held, x, BadKind, later);
    }
  }
}
