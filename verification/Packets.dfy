/** What the policy reads from a raw IPv4 packet. */
module Packets {
  import opened Common
  import opened Addresses
  import opened InternetChecksum

  const VPN_MTU := 1400

  datatype Ip = Ip(source: string, destination: string, protocol: byte, body: seq<byte>)

  /** `address(bytes, offset)` */
  function AddressAt(b: seq<byte>, offset: nat): string
    requires offset + 4 <= |b|
  {
    Dotted(b[offset..offset + 4])
  }

  /** Neither the reserved flag, nor more-fragments, nor a fragment offset: only don't-fragment may be set. */
  predicate NotFragment(word: nat) {
    word == 0 || word == 0x4000
  }

  /** `ipv4(bytes)`: a whole, unfragmented packet without options whose header checksum is right. */
  function ParseIp(b: seq<byte>): Option<Ip> {
    if |b| < 20 || |b| > VPN_MTU || b[0] / 16 != 4 then None
    else
      var header := b[0] % 16 * 4;
      if header != 20 || U16(b, 2) != |b| || b[8] == 0 then None
      else if !NotFragment(U16(b, 6)) || Checksum(b[..20], 0) != 0xffff then None
      else Some(Ip(AddressAt(b, 12), AddressAt(b, 16), b[9], b[20..]))
  }

  datatype Segment = Segment(sourcePort: nat, destinationPort: nat, sequence: u32, acknowledgement: u32,
                             fin: bool, syn: bool, rst: bool, ack: bool, payload: nat)

  /** The local and the remote port; the source's `tuple(localPort, remotePort)`. */
  datatype Key = Key(localPort: nat, remotePort: nat)

  predicate Bit(flags: byte, weight: nat)
    requires weight > 0
  {
    flags / weight % 2 == 1
  }

  /** The pseudo-header of the TCP checksum. */
  function PseudoHeader(b: seq<byte>, length: nat): (p: seq<byte>)
    requires |b| >= 20 && length < 0x1_0000
    ensures |p| == 12
  {
    b[12..20] + [0, 6, length / 256, length % 256]
  }

  /** The TCP part of `admit` up to the flow lookup: bounds, checksum, ports, and a SYN without FIN, RST or data. */
  function ParseSegment(b: seq<byte>): Option<Segment>
    requires 20 <= |b| <= VPN_MTU
  {
    var tcp := b[20..];
    if |tcp| < 20 then None
    else
      var offset := tcp[12] / 16 * 4;
      if offset < 20 || offset > |tcp| then None
      else if Checksum(tcp, Checksum(PseudoHeader(b, |tcp|), 0)) != 0xffff then None
      else
        var source, destination, flags := U16(tcp, 0), U16(tcp, 2), tcp[13];
        if source == 0 || destination == 0 then None
        else if Bit(flags, 2) && (Bit(flags, 1) || Bit(flags, 4) || |tcp| != offset) then None
        else Some(Segment(source, destination, U32(tcp, 4), U32(tcp, 8),
                          Bit(flags, 1), Bit(flags, 2), Bit(flags, 4), Bit(flags, 16), |tcp| - offset))
  }

  /** `tuple` as seen from this machine. */
  function SegmentKey(s: Segment, d: Direction): Key {
    if d.Out? then Key(s.sourcePort, s.destinationPort) else Key(s.destinationPort, s.sourcePort)
  }

  /** The flow that an ICMP error quotes, when the error and the quotation are well formed and carry the peers'
      addresses. */
  function ParseQuoted(icmp: seq<byte>, d: Direction, localAddress: string, peerAddress: string): Option<Key> {
    if |icmp| < 8 + 20 + 8 || icmp[0] !in {3, 11, 12} || Checksum(icmp, 0) != 0xffff then None
    else
      var inner := icmp[8..];
      var header := inner[0] % 16 * 4;
      if inner[0] / 16 != 4 || header != 20 || |inner| < header + 8 || U16(inner, 2) < header + 8 || inner[9] != 6
        then None
      else if !NotFragment(U16(inner, 6)) || Checksum(inner[..20], 0) != 0xffff then None
      else if AddressAt(inner, 12) != (if d.In? then localAddress else peerAddress)
           || AddressAt(inner, 16) != (if d.In? then peerAddress else localAddress) then None
      else
        var source, destination := U16(inner, 20), U16(inner, 22);
        Some(if d.In? then Key(source, destination) else Key(destination, source))
  }

  /** What a packet is to the policy. */
  datatype Input =
    | Stray              // not a valid packet between the two addresses in this direction: not even the sweep runs
    | Unusable           // addressed correctly, but neither a usable TCP segment nor a usable ICMP error
    | Tcp(segment: Segment)
    | Quoting(key: Key)

  function Classify(b: seq<byte>, d: Direction, localAddress: string, peerAddress: string): Input {
    var ip := ParseIp(b);
    if ip.None? then Stray
    else if ip.value.source != (if d.In? then peerAddress else localAddress)
         || ip.value.destination != (if d.In? then localAddress else peerAddress) then Stray
    else if ip.value.protocol == 1 then
      var quoted := ParseQuoted(ip.value.body, d, localAddress, peerAddress);
      if quoted.Some? then Quoting(quoted.value) else Unusable
    else if ip.value.protocol != 6 then Unusable
    else
      var segment := ParseSegment(b);
      if segment.Some? then Tcp(segment.value) else Unusable
  }

  /** A usable SYN has neither data nor FIN nor RST. */
  predicate BareSyn(input: Input) {
    input.Tcp? && input.segment.syn ==> input.segment.payload == 0 && !input.segment.fin && !input.segment.rst
  }

  lemma SynIsBare(b: seq<byte>, d: Direction, localAddress: string, peerAddress: string)
    ensures BareSyn(Classify(b, d, localAddress, peerAddress))
  {
    if ParseIp(b).Some? && ParseSegment(b).Some? {
      assert ParseSegment(b).value.syn ==> ParseSegment(b).value.payload == 0;
    }
  }

  /** A packet that is not stray carries the two configured addresses: written with dots, its address bytes are the
      configured texts, whatever these are, so they are the bytes of any number that such a text stands for. */
  lemma AddressesAreBound(b: seq<byte>, d: Direction, local: string, peer: string)
    requires Classify(b, d, local, peer) != Stray
    ensures |b| >= 20
    ensures Dotted(b[12..16]) == (if d.In? then peer else local) && Dotted(b[16..20]) == (if d.In? then local else peer)
    ensures forall n: u32 | Address(n) == (if d.In? then peer else local) :: b[12..16] == Octets(n)
    ensures forall n: u32 | Address(n) == (if d.In? then local else peer) :: b[16..20] == Octets(n)
  {
    forall n: u32 | Address(n) == (if d.In? then peer else local) ensures b[12..16] == Octets(n) {
      DottedInjective(b[12..16], Octets(n));
    }
    forall n: u32 | Address(n) == (if d.In? then local else peer) ensures b[16..20] == Octets(n) {
      DottedInjective(b[16..20], Octets(n));
    }
  }

  /** A usable segment's checksum covers the pseudo-header and the segment as one string. */
  lemma SegmentChecksumCoversBoth(b: seq<byte>)
    requires 20 <= |b| <= VPN_MTU && ParseSegment(b).Some?
    ensures Checksum(PseudoHeader(b, |b| - 20) + b[20..], 0) == 0xffff
  {
    ChainingIsConcatenation(PseudoHeader(b, |b| - 20), b[20..]);
  }

  /** Overwriting one aligned word of a usable segment, the padded last one included, with a value that differs modulo
      65535 makes it unusable. */
  lemma TamperedSegmentIsUnusable(b: seq<byte>, i: nat, v: nat)
    requires 20 <= |b| <= VPN_MTU && ParseSegment(b).Some?
    requires 20 <= i && FitsAt(b, i, v) && v % 0xffff != WordAt(b, i) % 0xffff
    ensures ParseSegment(PutWord(b, i, v)).None?
  {
    var tampered := PutWord(b, i, v);
    var pseudo := PseudoHeader(b, |b| - 20);
    SegmentChecksumCoversBoth(b);
    OverwriteDetected(pseudo + b[20..], i - 8, v);
    assert PutWord(pseudo + b[20..], i - 8, v) == pseudo + tampered[20..];
    SegmentFailsUnlessCovered(b, tampered);
  }

  lemma SegmentFailsUnlessCovered(b: seq<byte>, tampered: seq<byte>)
    requires 20 <= |tampered| == |b| <= VPN_MTU && tampered[..20] == b[..20]
    requires Checksum(PseudoHeader(b, |b| - 20) + tampered[20..], 0) != 0xffff
    ensures ParseSegment(tampered).None?
  {
    assert tampered[12..20] == tampered[..20][12..20] == b[..20][12..20] == b[12..20];
    if ParseSegment(tampered).Some? {
      SegmentChecksumCoversBoth(tampered);
    }
  }

  lemma StrayUnlessHeaderSums(b: seq<byte>, d: Direction, local: string, peer: string)
    ensures Classify(b, d, local, peer) != Stray ==> |b| >= 20 && Checksum(b[..20], 0) == 0xffff
  {
  }

  lemma TamperedHeaderFails(b: seq<byte>, i: nat, v: nat)
    requires |b| >= 20 && Checksum(b[..20], 0) == 0xffff
    requires i < 20 && FitsAt(b, i, v) && v % 0xffff != WordAt(b, i) % 0xffff
    ensures Checksum(PutWord(b, i, v)[..20], 0) != 0xffff
  {
    OverwriteDetected(b[..20], i, v);
    assert PutWord(b[..20], i, v) == PutWord(b, i, v)[..20];
  }

  /** The same for the IP header. */
  lemma TamperedHeaderIsStray(b: seq<byte>, i: nat, v: nat, d: Direction, local: string, peer: string)
    requires Classify(b, d, local, peer) != Stray
    requires i < 20 && FitsAt(b, i, v) && v % 0xffff != WordAt(b, i) % 0xffff
    ensures Classify(PutWord(b, i, v), d, local, peer) == Stray
  {
    StrayUnlessHeaderSums(b, d, local, peer);
    TamperedHeaderFails(b, i, v);
    StrayUnlessHeaderSums(PutWord(b, i, v), d, local, peer);
  }
}
