/** Packets built field by field, and that the policy reads back exactly the fields they were built from. */
module PacketRoundTrips {
  import opened Common
  import opened Addresses
  import opened InternetChecksum
  import opened Packets
  import opened PacketBytes

  /** `b` with the complement of its checksum in the empty field at `i`. */
  function Sealed(b: seq<byte>, i: nat): (r: seq<byte>)
    requires i % 2 == 0 && i + 1 < |b| <= 0x2_0000 && b[i] == 0 && b[i + 1] == 0
    ensures |r| == |b|
  {
    ValidatesWhenMultiple(b);
    PutWord(b, i, 0xffff - Checksum(b, 0))
  }

  lemma SealedSums(b: seq<byte>, i: nat)
    requires i % 2 == 0 && i + 1 < |b| <= 0x2_0000 && b[i] == 0 && b[i + 1] == 0
    ensures Sums(Sealed(b, i)) && Sealed(b, i)[..i] == b[..i] && Sealed(b, i)[i + 2..] == b[i + 2..]
  {
    ComplementValidates(b, i);
    SumsExactly(Sealed(b, i));
  }

  /** The free fields of an IPv4 header without options. */
  datatype IpFields = IpFields(service: byte, id: word, dontFragment: bool, hops: byte, source: u32, destination: u32)

  function OpenHeader(h: IpFields, length: word, protocol: byte): (b: seq<byte>)
    ensures |b| == 20
  {
    [0x45, h.service] + WordOctets(length) + WordOctets(h.id) + [if h.dontFragment then 0x40 else 0, 0]
    + [h.hops, protocol, 0, 0] + Octets(h.source) + Octets(h.destination)
  }

  function Header(h: IpFields, length: word, protocol: byte): (b: seq<byte>)
    ensures |b| == 20
  {
    Sealed(OpenHeader(h, length, protocol), 10)
  }

  lemma OpenHeaderFields(h: IpFields, length: word, protocol: byte)
    ensures var o := OpenHeader(h, length, protocol);
            && o[0] == 0x45 && o[2..4] == WordOctets(length) && (o[6..8] == [0, 0] || o[6..8] == [0x40, 0])
            && o[8] == h.hops && o[9] == protocol
            && o[12..16] == Octets(h.source) && o[16..20] == Octets(h.destination)
  {
  }

  /** Replacing the word at 10 leaves the other fields where they are. */
  lemma FieldsBeside(o: seq<byte>, b: seq<byte>)
    requires |o| == |b| == 20 && b[..10] == o[..10] && b[12..] == o[12..]
    ensures b[0] == o[0] && b[2..4] == o[2..4] && b[6..8] == o[6..8] && b[8] == o[8] && b[9] == o[9]
    ensures b[12..16] == o[12..16] && b[16..20] == o[16..20] && b[..20] == b
  {
    assert b[2..4] == b[..10][2..4] && o[2..4] == o[..10][2..4];
    assert b[6..8] == b[..10][6..8] && o[6..8] == o[..10][6..8];
    assert b[0] == b[..10][0] && b[8] == b[..10][8] && b[9] == b[..10][9];
    assert b[12..16] == b[12..][..4] && o[12..16] == o[12..][..4];
    assert b[16..20] == b[12..][4..] && o[16..20] == o[12..][4..];
  }

  lemma HeaderFields(h: IpFields, length: word, protocol: byte)
    ensures var b := Header(h, length, protocol);
            && HasHeader(b, length, protocol, Address(h.source), Address(h.destination)) && b[8] == h.hops
            && b[12..16] == Octets(h.source) && b[16..20] == Octets(h.destination)
  {
    OpenHeaderFields(h, length, protocol);
    SealedSums(OpenHeader(h, length, protocol), 10);
    FieldsBeside(OpenHeader(h, length, protocol), Header(h, length, protocol));
  }

  /** A header is what it is whatever follows it. */
  lemma HeaderInFront(header: seq<byte>, rest: seq<byte>, length: word, protocol: byte,
                      source: string, destination: string)
    requires |header| == 20 && HasHeader(header, length, protocol, source, destination)
    ensures HasHeader(header + rest, length, protocol, source, destination) && (header + rest)[8] == header[8]
  {
    var b := header + rest;
    assert b[..20] == header == header[..20];
    assert b[2..4] == header[2..4] && b[6..8] == header[6..8];
    assert b[12..16] == header[12..16] && b[16..20] == header[16..20];
  }

  lemma BuiltIsPacket(h: IpFields, protocol: byte, rest: seq<byte>)
    requires h.hops > 0 && 20 + |rest| <= 1400
    ensures IsPacket(Header(h, 20 + |rest|, protocol) + rest, protocol, Address(h.source), Address(h.destination))
  {
    HeaderFields(h, 20 + |rest|, protocol);
    HeaderInFront(Header(h, 20 + |rest|, protocol), rest, 20 + |rest|, protocol, Address(h.source),
                  Address(h.destination));
  }

  // ---- TCP ----

  /** The free fields of a TCP header, and the data. */
  datatype TcpFields = TcpFields(sourcePort: word, destinationPort: word, sequence: u32, acknowledgement: u32,
                                 fin: bool, syn: bool, rst: bool, psh: bool, ack: bool, urg: bool,
                                 window: word, urgent: word, options: seq<byte>, data: seq<byte>)

  function FlagOctet(t: TcpFields): byte {
    (if t.fin then 1 else 0) + (if t.syn then 2 else 0) + (if t.rst then 4 else 0)
    + (if t.psh then 8 else 0) + (if t.ack then 16 else 0) + (if t.urg then 32 else 0)
  }

  /** What a sender may send: ports, options of whole words, a packet of at most 1400 octets, a SYN on its own. */
  predicate Sendable(h: IpFields, t: TcpFields) {
    && h.hops > 0 && t.sourcePort > 0 && t.destinationPort > 0
    && |t.options| % 4 == 0 && |t.options| <= 40 && 40 + |t.options| + |t.data| <= 1400
    && (t.syn ==> t.data == [] && !t.fin && !t.rst)
  }

  function OpenSegment(t: TcpFields): (b: seq<byte>)
    requires |t.options| % 4 == 0 && |t.options| <= 40
    ensures |b| == 20 + |t.options| + |t.data| && b[16] == 0 && b[17] == 0
  {
    WordOctets(t.sourcePort) + WordOctets(t.destinationPort) + Octets(t.sequence) + Octets(t.acknowledgement)
    + [(5 + |t.options| / 4) * 16, FlagOctet(t)] + WordOctets(t.window) + [0, 0] + WordOctets(t.urgent)
    + t.options + t.data
  }

  /** The addresses and the length, as the TCP checksum covers them. */
  function Pseudo(h: IpFields, length: word): (b: seq<byte>)
    ensures |b| == 12
  {
    Octets(h.source) + Octets(h.destination) + [0, 6] + WordOctets(length)
  }

  function TcpSegment(h: IpFields, t: TcpFields): (b: seq<byte>)
    requires Sendable(h, t)
    ensures |b| == 20 + |t.options| + |t.data|
  {
    var open := OpenSegment(t);
    Sealed(Pseudo(h, |open|) + open, 28)[12..]
  }

  function TcpPacket(h: IpFields, t: TcpFields): seq<byte>
    requires Sendable(h, t)
  {
    Header(h, 40 + |t.options| + |t.data|, 6) + TcpSegment(h, t)
  }

  function Meant(t: TcpFields): Segment {
    Segment(t.sourcePort, t.destinationPort, t.sequence, t.acknowledgement, t.fin, t.syn, t.rst, t.ack, |t.data|)
  }

  lemma FlagsOfOctet(t: TcpFields)
    ensures HasFlags(FlagOctet(t), Meant(t))
  {
    var x := FlagOctet(t);
    var high, low := (if t.ack then 16 else 0) + (if t.urg then 32 else 0),
      (if t.fin then 1 else 0) + (if t.syn then 2 else 0);
    assert x % 2 == if t.fin then 1 else 0;
    assert x % 4 == low;
    assert x % 8 == low + if t.rst then 4 else 0;
    assert x % 32 == low + (if t.rst then 4 else 0) + (if t.psh then 8 else 0) + if t.ack then 16 else 0;
  }

  lemma OpenSegmentFields(t: TcpFields)
    requires |t.options| % 4 == 0 && |t.options| <= 40
    ensures var o := OpenSegment(t);
            && o[0..2] == WordOctets(t.sourcePort) && o[2..4] == WordOctets(t.destinationPort)
            && o[4..8] == Octets(t.sequence) && o[8..12] == Octets(t.acknowledgement)
            && o[12] / 16 * 4 == 20 + |t.options| && o[13] == FlagOctet(t)
  {
  }

  lemma SegmentSums(h: IpFields, t: TcpFields)
    requires Sendable(h, t)
    ensures var open, tcp := OpenSegment(t), TcpSegment(h, t);
            Sums(Pseudo(h, |open|) + tcp) && tcp[..16] == open[..16]
  {
    var open, tcp := OpenSegment(t), TcpSegment(h, t);
    var pseudo := Pseudo(h, |open|);
    var both, sealed := pseudo + open, Sealed(pseudo + open, 28);
    SealedSums(both, 28);
    assert sealed[..12] == sealed[..28][..12] == both[..28][..12] == pseudo;
    assert sealed == sealed[..12] + sealed[12..];
    assert tcp[..16] == sealed[..28][12..] == both[..28][12..] == open[..16];
  }

  lemma SegmentIsCarried(h: IpFields, t: TcpFields)
    requires Sendable(h, t)
    ensures CarriesSegment(TcpPacket(h, t), Meant(t))
  {
    var b, open, tcp := TcpPacket(h, t), OpenSegment(t), TcpSegment(h, t);
    var length := 40 + |t.options| + |t.data|;
    HeaderFields(h, length, 6);
    assert b[20..] == tcp;
    assert b[12..20] == Header(h, length, 6)[12..16] + Header(h, length, 6)[16..20];
    assert b[12..20] + [0, 6] + WordOctets(|tcp|) == Pseudo(h, |open|);
    SegmentSums(h, t);
    OpenSegmentFields(t);
    FlagsOfOctet(t);
    assert tcp[0..2] == tcp[..16][0..2] && tcp[2..4] == tcp[..16][2..4];
    assert tcp[4..8] == tcp[..16][4..8] && tcp[8..12] == tcp[..16][8..12];
    assert tcp[12] == tcp[..16][12] && tcp[13] == tcp[..16][13];
  }

  /** The local and the peer's address, for a packet that goes in this direction. */
  function LocalOf(h: IpFields, d: Direction): string {
    Address(if d.Out? then h.source else h.destination)
  }

  function PeerOf(h: IpFields, d: Direction): string {
    Address(if d.Out? then h.destination else h.source)
  }

  lemma TcpIsPacket(h: IpFields, t: TcpFields)
    requires Sendable(h, t)
    ensures IsPacket(TcpPacket(h, t), 6, Address(h.source), Address(h.destination))
  {
    BuiltIsPacket(h, 6, TcpSegment(h, t));
  }

  lemma ReadAsTcp(b: seq<byte>, source: string, destination: string, d: Direction, localAddress: string,
                  peerAddress: string, s: Segment)
    requires IsPacket(b, 6, source, destination) && CarriesSegment(b, s)
    requires s.syn ==> s.payload == 0 && !s.fin && !s.rst
    requires source == Sender(d, localAddress, peerAddress) && destination == Recipient(d, localAddress, peerAddress)
    ensures Classify(b, d, localAddress, peerAddress) == Tcp(s)
  {
    TcpExactly(b, d, localAddress, peerAddress, s);
  }

  /** Whatever is sent is read as it was meant, in both directions: any addresses, ports, numbers, flags, options and
      data, with don't-fragment set or clear. */
  lemma TcpRoundTrip(h: IpFields, t: TcpFields, d: Direction)
    requires Sendable(h, t)
    ensures Classify(TcpPacket(h, t), d, LocalOf(h, d), PeerOf(h, d)) == Tcp(Meant(t))
  {
    TcpIsPacket(h, t);
    SegmentIsCarried(h, t);
    ReadAsTcp(TcpPacket(h, t), Address(h.source), Address(h.destination), d, LocalOf(h, d), PeerOf(h, d), Meant(t));
  }

  // ---- ICMP errors ----

  /** An ICMP error with an arbitrary code and unused part, that quotes some bytes. */
  function IcmpError(h: IpFields, kind: byte, code: byte, unused: u32, quote: seq<byte>): seq<byte>
    requires |quote| <= 1372
  {
    Header(h, 28 + |quote|, 1) + Sealed([kind, code, 0, 0] + Octets(unused) + quote, 2)
  }

  /** The start of a segment as a router quotes it: its header, with whatever is left of its time to live, its ports,
      and at least four octets more. */
  function Quotation(q: IpFields, length: word, sourcePort: word, destinationPort: word,
                     more: seq<byte>): (b: seq<byte>)
    ensures |b| == 24 + |more|
  {
    Header(q, length, 6) + (WordOctets(sourcePort) + WordOctets(destinationPort) + more)
  }

  /** The octets of an error: where its kind and its quotation stand, and that they sum up. */
  lemma ErrorOctets(h: IpFields, kind: byte, code: byte, unused: u32, quote: seq<byte>)
    requires |quote| <= 1372
    ensures var b := IcmpError(h, kind, code, unused, quote);
            |b| == 28 + |quote| && b[20] == kind && b[28..] == quote && Sums(b[20..])
  {
    var open := [kind, code, 0, 0] + Octets(unused) + quote;
    var b, icmp := IcmpError(h, kind, code, unused, quote), Sealed(open, 2);
    SealedSums(open, 2);
    assert b[20..] == icmp;
    assert icmp[0] == icmp[..2][0] == open[..2][0];
    assert b[28..] == icmp[4..][4..] == open[4..][4..];
    assert open[4..][4..] == quote;
  }

  lemma QuotationFields(q: IpFields, length: word, sourcePort: word, destinationPort: word, more: seq<byte>)
    ensures var quote := Quotation(q, length, sourcePort, destinationPort, more);
            && |quote| == 24 + |more| && HasHeader(quote, length, 6, Address(q.source), Address(q.destination))
            && quote[20..22] == WordOctets(sourcePort) && quote[22..24] == WordOctets(destinationPort)
  {
    HeaderFields(q, length, 6);
    HeaderInFront(Header(q, length, 6), WordOctets(sourcePort) + WordOctets(destinationPort) + more, length, 6,
                  Address(q.source), Address(q.destination));
  }

  lemma QuotationIsCarried(h: IpFields, kind: byte, code: byte, unused: u32, q: IpFields, length: word,
                           sourcePort: word, destinationPort: word, more: seq<byte>)
    requires kind in {3, 11, 12} && length >= 28 && 4 <= |more| <= 1348
    ensures CarriesQuote(IcmpError(h, kind, code, unused, Quotation(q, length, sourcePort, destinationPort, more)),
                         Address(q.source), Address(q.destination), sourcePort, destinationPort)
  {
    QuotationFields(q, length, sourcePort, destinationPort, more);
    ErrorOctets(h, kind, code, unused, Quotation(q, length, sourcePort, destinationPort, more));
  }

  lemma ErrorIsPacket(h: IpFields, kind: byte, code: byte, unused: u32, quote: seq<byte>)
    requires h.hops > 0 && |quote| <= 1372
    ensures IsPacket(IcmpError(h, kind, code, unused, quote), 1, Address(h.source), Address(h.destination))
  {
    BuiltIsPacket(h, 1, Sealed([kind, code, 0, 0] + Octets(unused) + quote, 2));
  }

  lemma ReadAsQuoting(b: seq<byte>, source: string, destination: string, s: Segment, d: Direction,
                      localAddress: string, peerAddress: string)
    requires IsPacket(b, 1, destination, source)
    requires CarriesQuote(b, source, destination, s.sourcePort, s.destinationPort)
    requires source == Sender(d, localAddress, peerAddress) && destination == Recipient(d, localAddress, peerAddress)
    ensures Classify(b, d.Opposite(), localAddress, peerAddress) == Quoting(SegmentKey(s, d))
  {
    QuotingExactly(b, d.Opposite(), localAddress, peerAddress, SegmentKey(s, d));
  }

  /** An error about a segment comes the other way and is about that segment's own flow, in both directions. */
  lemma QuotingRoundTrip(h: IpFields, kind: byte, code: byte, unused: u32, q: IpFields, length: word, s: Segment,
                         more: seq<byte>, d: Direction)
    requires h.hops > 0 && kind in {3, 11, 12} && length >= 28 && 4 <= |more| <= 1348
    requires h.source == q.destination && h.destination == q.source
    requires s.sourcePort < 0x1_0000 && s.destinationPort < 0x1_0000
    ensures var quote := Quotation(q, length, s.sourcePort, s.destinationPort, more);
            Classify(IcmpError(h, kind, code, unused, quote), d.Opposite(), LocalOf(q, d), PeerOf(q, d))
              == Quoting(SegmentKey(s, d))
  {
    var quote := Quotation(q, length, s.sourcePort, s.destinationPort, more);
    ErrorIsPacket(h, kind, code, unused, quote);
    QuotationIsCarried(h, kind, code, unused, q, length, s.sourcePort, s.destinationPort, more);
    ReadAsQuoting(IcmpError(h, kind, code, unused, quote), Address(q.source), Address(q.destination), s, d,
                  LocalOf(q, d), PeerOf(q, d));
  }
}
