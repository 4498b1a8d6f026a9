/** IP packets field by field, as they arrive from a network, and what the reader shows of them. */
module PcapDatagrams {
  import opened Bits
  import opened Common
  import opened PcapFormat
  import opened PcapChunks
  import opened PcapLabels

  /** The part of a datagram after its IP header; what the reader has no use for is kept as bytes. */
  datatype Segment =
    | TcpSegment(srcPort: Port, dstPort: Port, numbers: seq<bv8>, flags: seq<bv8>, options: seq<bv8>, payload: seq<bv8>)
    | UdpSegment(srcPort: Port, dstPort: Port, lengthAndSum: seq<bv8>, payload: seq<bv8>)
    | SctpSegment(srcPort: Port, dstPort: Port, tagAndSum: seq<bv8>, chunks: seq<Chunk>)
    | IcmpSegment(message: seq<bv8>)
    | OtherSegment(kind: bv8, body: seq<bv8>)
  {
    predicate WellFormed() {
      match this
      case TcpSegment(_, _, numbers, flags, options, _) =>
        |numbers| == 8 && |flags| == 7 && |options| % 4 == 0 && |options| <= 40
      case UdpSegment(_, _, lengthAndSum, _) => |lengthAndSum| == 4
      case SctpSegment(_, _, tagAndSum, chunks) => |tagAndSum| == 8 && AllWellFormed(chunks)
      case IcmpSegment(_) => true
      case OtherSegment(kind, _) => kind != ICMP && kind != TCP && kind != UDP && kind != SCTP
    }

    function Proto(): bv8 {
      match this
      case TcpSegment(_, _, _, _, _, _) => TCP
      case UdpSegment(_, _, _, _) => UDP
      case SctpSegment(_, _, _, _) => SCTP
      case IcmpSegment(_) => ICMP
      case OtherSegment(kind, _) => kind
    }

    /** The header length of section 3.1 of RFC 9293, in words, in the high half of a byte. */
    function DataOffset(): bv8
      requires TcpSegment? && WellFormed()
    {
      (5 + |options| / 4) as bv8 << 4
    }

    function Bytes(): seq<bv8>
      requires WellFormed()
    {
      match this
      case TcpSegment(srcPort, dstPort, numbers, flags, options, payload) =>
        Be16(srcPort) + Be16(dstPort) + numbers + [DataOffset()] + flags + options + payload
      case UdpSegment(srcPort, dstPort, lengthAndSum, payload) => Be16(srcPort) + Be16(dstPort) + lengthAndSum + payload
      case SctpSegment(srcPort, dstPort, tagAndSum, chunks) => Be16(srcPort) + Be16(dstPort) + tagAndSum + ChunkBytes(chunks)
      case IcmpSegment(message) => message
      case OtherSegment(_, body) => body
    }

    predicate HasPorts() { TcpSegment? || UdpSegment? || SctpSegment? }

    function Ngap(): seq<seq<bv8>> {
      if SctpSegment? then UserData(chunks) else []
    }

    function Label(): Protocol {
      match this
      case TcpSegment(srcPort, dstPort, _, _, _, payload) => DueTcp(srcPort, dstPort, payload)
      case UdpSegment(srcPort, dstPort, _, payload) => DueUdp(srcPort, dstPort, payload)
      case SctpSegment(_, _, _, chunks) => if UserData(chunks) == [] then Protocol.Sctp else Protocol.Ngap
      case IcmpSegment(_) => Protocol.Icmp
      case OtherSegment(_, _) => Protocol.Ip
    }
  }

  /** A datagram of version 4, with its options, or of version 6. */
  datatype Datagram =
    | V4(service: seq<bv8>, sum: seq<bv8>, src: seq<bv8>, dst: seq<bv8>, options: seq<bv8>, segment: Segment)
    | V6(flow: seq<bv8>, hopLimit: bv8, src: seq<bv8>, dst: seq<bv8>, segment: Segment)
  {
    predicate WellFormed() {
      && segment.WellFormed()
      && match this
         case V4(service, sum, src, dst, options, _) =>
           |service| == 8 && |sum| == 2 && |src| == |dst| == 4 && |options| % 4 == 0 && |options| <= 40
         case V6(flow, _, src, dst, _) => |flow| == 5 && |src| == |dst| == 16
    }

    function EtherType(): nat { if V4? then 0x0800 else 0x86dd }

    /** The version and the header length in words, of section 3.1 of RFC 791. */
    function FirstByte(): bv8
      requires V4? && WellFormed()
    {
      0x40 | (5 + |options| / 4) as bv8
    }

    function Bytes(): seq<bv8>
      requires WellFormed()
    {
      match this
      case V4(service, sum, src, dst, options, segment) =>
        [FirstByte()] + service + [segment.Proto()] + sum + src + dst + options + segment.Bytes()
      case V6(flow, hopLimit, src, dst, segment) =>
        [0x60] + flow + [segment.Proto(), hopLimit] + src + dst + segment.Bytes()
    }

    /** What the reader should show of it. */
    function Expected(sec: nat, usec: nat, raw: seq<bv8>): Event {
      Event(sec, usec, segment.Label(), segment.Proto(), src, if segment.HasPorts() then segment.srcPort else 0,
            dst, if segment.HasPorts() then segment.dstPort else 0, segment.Ngap(), raw)
    }
  }

  // ---------- transport ----------

  lemma HeaderWords(n: nat)
    requires 5 <= n <= 15
    ensures Version(n as bv8 << 4) as nat == n
    ensures (0x40 | n as bv8) & 0x0f == n as bv8 && Version(0x40 | n as bv8) == 4
    ensures n as bv8 as nat == n
  {
    assert n == 5 || n == 6 || n == 7 || n == 8 || n == 9 || n == 10 || n == 11 || n == 12 || n == 13 || n == 14 || n == 15;
  }

  lemma SegmentPorts(g: Segment)
    requires g.WellFormed() && g.HasPorts()
    ensures
      var bytes := g.Bytes();
      && |bytes| >= 8 && GetBe16(bytes, 0) == g.srcPort && GetBe16(bytes, 2) == g.dstPort
      && (g.UdpSegment? ==> bytes[8..] == g.payload)
      && (g.SctpSegment? ==> |bytes| >= 12 && bytes[12..] == ChunkBytes(g.chunks))
      && (g.TcpSegment? ==> |bytes| >= 20 + |g.options| && bytes[12] == g.DataOffset() && bytes[20 + |g.options|..] == g.payload)
  {
    hide Be16, GetBe16, ChunkBytes, g.DataOffset;
    var bytes := g.Bytes();
    assert bytes[0..2] == Be16(g.srcPort) && bytes[2..4] == Be16(g.dstPort);
    Be16Back(bytes, 0, g.srcPort);
    Be16Back(bytes, 2, g.dstPort);
  }

  lemma TcpPayloadBack(g: Segment)
    requires g.WellFormed() && g.TcpSegment?
    ensures TcpPayload(g.Bytes()) == g.payload
  {
    hide g.Bytes, Version;
    SegmentPorts(g);
    HeaderWords(5 + |g.options| / 4);
  }

  /** Ports, label and user data come back out of any segment. */
  lemma SegmentBack(g: Segment, e: Event)
    requires g.WellFormed() && e.proto == g.Proto() && e.srcPort == e.dstPort == 0 && e.ngap == [] && e.protocol == Ip
    ensures TransportEvent(e, g.Bytes())
         == Done(e.(protocol := g.Label(), srcPort := if g.HasPorts() then g.srcPort else 0,
                    dstPort := if g.HasPorts() then g.dstPort else 0, ngap := g.Ngap()))
  {
    hide GetBe16, TcpLabel, UdpLabel, DueTcp, DueUdp, TcpPayload, NgapPayloads, UserData, ChunkBytes, g.Bytes;
    if g.HasPorts() { SegmentPorts(g); }
    if g.TcpSegment? {
      TcpPayloadBack(g);
      LabelsAreDue(g.srcPort, g.dstPort, g.payload);
    }
    if g.UdpSegment? { LabelsAreDue(g.srcPort, g.dstPort, g.payload); }
    if g.SctpSegment? { ChunksBack(g.chunks); }
  }

  // ---------- IP ----------

  lemma HeaderBack4(g: Datagram)
    requires g.WellFormed() && g.V4?
    ensures
      var ip := g.Bytes();
      && |ip| >= 20 + |g.options| && ip[0] == g.FirstByte() && ip[9] == g.segment.Proto()
      && ip[12..16] == g.src && ip[16..20] == g.dst && ip[20 + |g.options|..] == g.segment.Bytes()
  {
    hide g.segment.Bytes, g.segment.Proto, g.FirstByte;
    var ip, head := g.Bytes(), [g.FirstByte()] + g.service + [g.segment.Proto()] + g.sum;
    assert ip == head + g.src + g.dst + g.options + g.segment.Bytes();
    hide g.Bytes;
    assert |head| == 12 && head[0] == g.FirstByte() && head[9] == g.segment.Proto();
    FourParts(head, g.src, g.dst, g.options, g.segment.Bytes());
  }

  lemma FourParts(head: seq<bv8>, a: seq<bv8>, b: seq<bv8>, c: seq<bv8>, rest: seq<bv8>)
    ensures
      var all := head + a + b + c + rest;
      && all[..|head|] == head && all[|head|..|head| + |a|] == a && all[|head| + |a|..|head| + |a| + |b|] == b
      && all[|head| + |a| + |b| + |c|..] == rest
      && forall i | 0 <= i < |head| :: all[i] == head[i]
  {}

  lemma HeaderBack6(g: Datagram)
    requires g.WellFormed() && g.V6?
    ensures
      var ip := g.Bytes();
      && |ip| >= 40 && ip[0] == 0x60 && ip[6] == g.segment.Proto()
      && ip[8..24] == g.src && ip[24..40] == g.dst && ip[40..] == g.segment.Bytes()
  {
    hide g.segment.Bytes, g.segment.Proto;
    var ip := g.Bytes();
    var head := [0x60] + g.flow + [g.segment.Proto(), g.hopLimit];
    assert ip == head + (g.src + (g.dst + g.segment.Bytes()));
    assert ip[8..] == g.src + (g.dst + g.segment.Bytes());
    assert ip[8..24] == ip[8..][..16] && ip[24..40] == ip[8..][16..32] && ip[40..] == ip[8..][32..];
  }

  /** Whatever the version, the options and the transport, a datagram is shown as what its fields say. */
  lemma DatagramBack(g: Datagram, sec: nat, usec: nat, raw: seq<bv8>)
    requires g.WellFormed()
    ensures IpEvent(sec, usec, g.Bytes(), g.EtherType(), raw) == Done(Some(g.Expected(sec, usec, raw)))
    ensures |g.Bytes()| > 0 && IpVersion(g.EtherType(), g.Bytes()[0])
  {
    hide g.Bytes, g.segment.Bytes, g.segment.Proto, TransportEvent;
    SegmentBack(g.segment, Event(sec, usec, Ip, g.segment.Proto(), g.src, 0, g.dst, 0, [], raw));
    if g.V4? {
      HeaderBack4(g);
      HeaderWords(5 + |g.options| / 4);
      assert AfterHeader(g.Bytes()) == g.segment.Bytes();
    } else {
      HeaderBack6(g);
    }
  }
}
