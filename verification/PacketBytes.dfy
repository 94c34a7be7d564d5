/** The packets themselves, octet by octet (section 3.1 of RFC 791, of RFC 9293, and RFC 792): which byte strings the
    policy reads as a TCP segment or as an ICMP error about one, and what it reads in them. */
module PacketBytes {
  import opened Common
  import opened Addresses
  import opened InternetChecksum
  import opened Packets

  type word = x: int | 0 <= x < 0x1_0000

  /** Two octets, the more significant one first. */
  function WordOctets(v: word): (b: seq<byte>)
    ensures |b| == 2
  {
    [v / 256, v % 256]
  }

  lemma U16OfWord(b: seq<byte>, i: nat, v: word)
    requires i + 2 <= |b|
    ensures b[i..i + 2] == WordOctets(v) <==> U16(b, i) == v
  {
    assert b[i..i + 2] == [b[i], b[i + 1]];
  }

  lemma U32OfOctets(b: seq<byte>, i: nat, n: u32)
    requires i + 4 <= |b|
    ensures b[i..i + 4] == Octets(n) <==> U32(b, i) == n
  {
    var x := b[i..i + 4];
    assert x == [b[i], b[i + 1], b[i + 2], b[i + 3]];
    assert U32(b, i) == FromOctets(x);
    OctetsRoundTrip(n);
  }

  /** The octets sum to a multiple of 65535 that is not zero: the checksum in them is right. */
  ghost predicate Sums(b: seq<byte>) {
    WordSum(b) % 0xffff == 0 && WordSum(b) > 0
  }

  /** An IPv4 header without options at the start of `b`: unfragmented, alive, with a right checksum. `length` is what
      the total length field says. */
  ghost predicate HasHeader(b: seq<byte>, length: word, protocol: byte, source: string, destination: string) {
    && |b| >= 20 && b[0] == 0x45 && b[2..4] == WordOctets(length)
    && (b[6..8] == [0, 0] || b[6..8] == [0x40, 0])
    && b[9] == protocol && Sums(b[..20])
    && Dotted(b[12..16]) == source && Dotted(b[16..20]) == destination
  }

  /** A whole packet as the policy accepts it, with the time to live not run out. */
  ghost predicate IsPacket(b: seq<byte>, protocol: byte, source: string, destination: string) {
    20 <= |b| <= 1400 && b[8] > 0 && HasHeader(b, |b|, protocol, source, destination)
  }

  /** The segment's flags are the ones set in the octet. */
  predicate HasFlags(x: byte, s: Segment) {
    && (s.fin <==> x % 2 >= 1) && (s.syn <==> x % 4 >= 2) && (s.rst <==> x % 8 >= 4) && (s.ack <==> x % 32 >= 16)
  }

  /** A TCP header and its data, with a right checksum over pseudo-header and segment. */
  ghost predicate CarriesSegment(b: seq<byte>, s: Segment) {
    && 40 <= |b| <= 1400 && s.sourcePort < 0x1_0000 && s.destinationPort < 0x1_0000
    && var tcp := b[20..];
       && tcp[0..2] == WordOctets(s.sourcePort) && s.sourcePort > 0
       && tcp[2..4] == WordOctets(s.destinationPort) && s.destinationPort > 0
       && tcp[4..8] == Octets(s.sequence) && tcp[8..12] == Octets(s.acknowledgement)
       && tcp[12] / 16 >= 5 && tcp[12] / 16 * 4 + s.payload == |tcp| && HasFlags(tcp[13], s)
       && Sums(b[12..20] + [0, 6] + WordOctets(|tcp|) + tcp)
  }

  lemma SumsExactly(b: seq<byte>)
    requires |b| <= 0x2_0000
    ensures Sums(b) <==> Checksum(b, 0) == 0xffff
  {
    ValidatesWhenMultiple(b);
  }

  lemma HeaderExactly(b: seq<byte>, protocol: byte, source: string, destination: string)
    ensures IsPacket(b, protocol, source, destination) <==>
            ParseIp(b).Some? && ParseIp(b).value == Ip(source, destination, protocol, b[20..])
  {
    if 20 <= |b| <= 1400 {
      SumsExactly(b[..20]);
      U16OfWord(b, 2, |b|);
      U16OfWord(b, 6, 0);
      U16OfWord(b, 6, 0x4000);
    }
  }

  lemma TopBit(h: nat, l: nat, w: nat, r: nat)
    requires l < 2 && r < w
    ensures (h * (2 * w) + (if l == 1 then w else 0) + r) % (2 * w) == (if l == 1 then w else 0) + r
  {
    var rest := (if l == 1 then w else 0) + r;
    QuotientUnique(h * (2 * w) + rest, 2 * w, h, rest);
  }

  lemma TwiceAndOne(h: nat, l: nat, w: nat)
    requires l < 2
    ensures (2 * h + l) * w == h * (2 * w) + if l == 1 then w else 0
  {
    assert 2 * h * w == h * (2 * w);
    if l == 1 {
      assert (2 * h + 1) * w == 2 * h * w + w;
    }
  }

  /** A bit is set exactly if the value modulo the next power of two reaches its weight. */
  lemma BitOfRemainder(x: nat, w: nat)
    requires w > 0
    ensures x % (2 * w) >= w <==> x / w % 2 == 1
  {
    var q, r := x / w, x % w;
    var h, l := q / 2, q % 2;
    assert x == q * w + r;
    TwiceAndOne(h, l, w);
    TopBit(h, l, w, r);
  }

  lemma FlagsExactly(x: byte, s: Segment)
    ensures HasFlags(x, s) <==> s.fin == Bit(x, 1) && s.syn == Bit(x, 2) && s.rst == Bit(x, 4) && s.ack == Bit(x, 16)
  {
    BitOfRemainder(x, 1);
    BitOfRemainder(x, 2);
    BitOfRemainder(x, 4);
    BitOfRemainder(x, 16);
  }

  lemma SegmentSumExactly(b: seq<byte>)
    requires 40 <= |b| <= 1400
    ensures Sums(b[12..20] + [0, 6] + WordOctets(|b| - 20) + b[20..]) <==>
            Checksum(b[20..], Checksum(PseudoHeader(b, |b| - 20), 0)) == 0xffff
  {
    var pseudo, tcp := PseudoHeader(b, |b| - 20), b[20..];
    assert b[12..20] + [0, 6] + WordOctets(|b| - 20) == pseudo;
    ChainingIsConcatenation(pseudo, tcp);
    SumsExactly(pseudo + tcp);
  }

  lemma SegmentExactly(b: seq<byte>, s: Segment)
    requires 20 <= |b| <= 1400
    ensures CarriesSegment(b, s) && BareSyn(Tcp(s)) <==> ParseSegment(b) == Some(s)
  {
    if |b| >= 40 {
      var tcp := b[20..];
      SegmentSumExactly(b);
      FlagsExactly(tcp[13], s);
      if s.sourcePort < 0x1_0000 { U16OfWord(tcp, 0, s.sourcePort); }
      if s.destinationPort < 0x1_0000 { U16OfWord(tcp, 2, s.destinationPort); }
      U32OfOctets(tcp, 4, s.sequence);
      U32OfOctets(tcp, 8, s.acknowledgement);
    }
  }

  /** The address of the side that sends in this direction, and of the side that receives. */
  function Sender(d: Direction, localAddress: string, peerAddress: string): string {
    if d.In? then peerAddress else localAddress
  }

  function Recipient(d: Direction, localAddress: string, peerAddress: string): string {
    if d.In? then localAddress else peerAddress
  }

  /** Which bytes are a TCP segment to the policy, and which one: an unfragmented packet between the two addresses with
      right checksums, whose fields stand at the places of the standards, a SYN among them without data, FIN or RST. */
  lemma TcpExactly(b: seq<byte>, d: Direction, localAddress: string, peerAddress: string, s: Segment)
    ensures Classify(b, d, localAddress, peerAddress) == Tcp(s) <==>
              && IsPacket(b, 6, Sender(d, localAddress, peerAddress), Recipient(d, localAddress, peerAddress))
              && CarriesSegment(b, s) && (s.syn ==> s.payload == 0 && !s.fin && !s.rst)
  {
    HeaderExactly(b, 6, Sender(d, localAddress, peerAddress), Recipient(d, localAddress, peerAddress));
    if 20 <= |b| <= 1400 {
      SegmentExactly(b, s);
    }
  }

  /** What passes the address checks at all, so that the sweep runs: exactly the packets between the two addresses. */
  lemma StrayExactly(b: seq<byte>, d: Direction, localAddress: string, peerAddress: string)
    ensures Classify(b, d, localAddress, peerAddress) != Stray <==>
              |b| > 9 && IsPacket(b, b[9], Sender(d, localAddress, peerAddress),
                                  Recipient(d, localAddress, peerAddress))
  {
    if |b| > 9 {
      HeaderExactly(b, b[9], Sender(d, localAddress, peerAddress), Recipient(d, localAddress, peerAddress));
    }
  }

  /** An ICMP error (destination unreachable, time exceeded, parameter problem) that quotes the start of a TCP segment:
      a whole header, whose time to live may have run out, the two ports, and four octets more. */
  ghost predicate CarriesQuote(b: seq<byte>, source: string, destination: string, sourcePort: nat,
                               destinationPort: nat) {
    && 56 <= |b| <= 1400 && sourcePort < 0x1_0000 && destinationPort < 0x1_0000
    && (b[20] == 3 || b[20] == 11 || b[20] == 12) && Sums(b[20..])
    && var inner := b[28..];
       && (exists length: word :: length >= 28 && HasHeader(inner, length, 6, source, destination))
       && inner[20..22] == WordOctets(sourcePort) && inner[22..24] == WordOctets(destinationPort)
  }

  lemma QuotedHeaderExactly(inner: seq<byte>, source: string, destination: string)
    requires 28 <= |inner| <= 1400
    ensures (exists length: word :: length >= 28 && HasHeader(inner, length, 6, source, destination)) <==>
              && inner[0] / 16 == 4 && inner[0] % 16 * 4 == 20 && U16(inner, 2) >= 28 && inner[9] == 6
              && NotFragment(U16(inner, 6)) && Checksum(inner[..20], 0) == 0xffff
              && AddressAt(inner, 12) == source && AddressAt(inner, 16) == destination
  {
    SumsExactly(inner[..20]);
    U16OfWord(inner, 6, 0);
    U16OfWord(inner, 6, 0x4000);
    var said := U16(inner, 2);
    U16OfWord(inner, 2, said);
    assert HasHeader(inner, said, 6, source, destination) <==>
           && inner[0] == 0x45 && inner[9] == 6 && NotFragment(U16(inner, 6)) && Checksum(inner[..20], 0) == 0xffff
           && AddressAt(inner, 12) == source && AddressAt(inner, 16) == destination;
    if length: word :| length >= 28 && HasHeader(inner, length, 6, source, destination) {
      U16OfWord(inner, 2, length);
    }
  }

  /** Which bytes quote a flow, and which one: an error about a segment that went the other way, on the same ports. */
  lemma QuotingExactly(b: seq<byte>, d: Direction, localAddress: string, peerAddress: string, key: Key)
    ensures Classify(b, d, localAddress, peerAddress) == Quoting(key) <==>
              && IsPacket(b, 1, Sender(d, localAddress, peerAddress), Recipient(d, localAddress, peerAddress))
              && CarriesQuote(b, Recipient(d, localAddress, peerAddress), Sender(d, localAddress, peerAddress),
                              if d.In? then key.localPort else key.remotePort,
                              if d.In? then key.remotePort else key.localPort)
  {
    HeaderExactly(b, 1, Sender(d, localAddress, peerAddress), Recipient(d, localAddress, peerAddress));
    if 56 <= |b| <= 1400 {
      QuoteExactly(b, d, localAddress, peerAddress, key);
    }
  }

  lemma QuoteExactly(b: seq<byte>, d: Direction, localAddress: string, peerAddress: string, key: Key)
    requires 56 <= |b| <= 1400
    ensures ParseQuoted(b[20..], d, localAddress, peerAddress) == Some(key) <==>
            CarriesQuote(b, Recipient(d, localAddress, peerAddress), Sender(d, localAddress, peerAddress),
                         if d.In? then key.localPort else key.remotePort,
                         if d.In? then key.remotePort else key.localPort)
  {
    var inner := b[28..];
    assert b[20..][8..] == inner;
    SumsExactly(b[20..]);
    QuotedHeaderExactly(inner, Recipient(d, localAddress, peerAddress), Sender(d, localAddress, peerAddress));
    U16OfWord(inner, 20, U16(inner, 20));
    U16OfWord(inner, 22, U16(inner, 22));
    if key.localPort < 0x1_0000 && key.remotePort < 0x1_0000 {
      U16OfWord(inner, 20, if d.In? then key.localPort else key.remotePort);
      U16OfWord(inner, 22, if d.In? then key.remotePort else key.localPort);
    }
  }
}
