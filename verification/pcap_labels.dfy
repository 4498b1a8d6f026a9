/** Which label the reader gives a packet, which it shows, and which packets a capture filter lets through, all in
    port, protocol and byte numbers. */
module PcapLabels {
  import opened Bits
  import opened Common
  import opened PcapFormat

  // ---------- labels ----------

  /** Voice, by either port. */
  predicate RtpPorts(srcPort: Port, dstPort: Port) {
    srcPort == 5004 || srcPort == 5005 || dstPort == 5004 || dstPort == 5005
  }

  /** "XN" and a message type. */
  predicate XnapStart(payload: seq<bv8>) {
    |payload| >= 3 && payload[0] == 0x58 && payload[1] == 0x4e
  }

  /** "RRC" and a message type. */
  predicate RrcStart(payload: seq<bv8>) {
    |payload| >= 4 && payload[0] == 0x52 && payload[1] == 0x52 && payload[2] == 0x43
  }

  /** The start of a request or a response of HTTP/1, or of a connection of HTTP/2. */
  predicate HttpStart(payload: seq<bv8>) {
    || [0x47, 0x45, 0x54, 0x20] <= payload // GET
    || [0x50, 0x4f, 0x53, 0x54, 0x20] <= payload // POST
    || [0x50, 0x55, 0x54, 0x20] <= payload // PUT
    || [0x44, 0x45, 0x4c, 0x45, 0x54, 0x45, 0x20] <= payload // DELETE
    || [0x50, 0x41, 0x54, 0x43, 0x48, 0x20] <= payload // PATCH
    || [0x48, 0x54, 0x54, 0x50, 0x2f, 0x31, 0x2e] <= payload // HTTP/1.
    || [0x50, 0x52, 0x49, 0x20, 0x2a, 0x20, 0x48, 0x54, 0x54, 0x50, 0x2f, 0x32, 0x2e, 0x30] <= payload // PRI * HTTP/2.0
  }

  /** A port of the service-based interface of the core network. */
  predicate SbiPort(port: Port) {
    port == 7777 || port == 29502 || port == 29518 || port == 29509 || port == 29505 || port == 29503 || port == 29504
    || port == 29507 || port == 29510
  }

  /** The label due to a UDP datagram: voice comes before what the payload says. */
  function DueUdp(srcPort: Port, dstPort: Port, payload: seq<bv8>): Protocol {
    if RtpPorts(srcPort, dstPort) then Rtp else if XnapStart(payload) then Xnap else if RrcStart(payload) then Rrc else Udp
  }

  /** The label due to a TCP segment. */
  function DueTcp(srcPort: Port, dstPort: Port, payload: seq<bv8>): Protocol {
    if HttpStart(payload) || SbiPort(srcPort) || SbiPort(dstPort) then Http else Tcp
  }

  lemma CapitalsToE()
    ensures Octet('A' as nat) == 0x41 && Octet('C' as nat) == 0x43 && Octet('D' as nat) == 0x44 && Octet('E' as nat) == 0x45
  {}

  lemma CapitalsToL()
    ensures Octet('G' as nat) == 0x47 && Octet('H' as nat) == 0x48 && Octet('I' as nat) == 0x49 && Octet('L' as nat) == 0x4c
  {}

  lemma CapitalsFromO()
    ensures Octet('O' as nat) == 0x4f && Octet('P' as nat) == 0x50 && Octet('R' as nat) == 0x52 && Octet('S' as nat) == 0x53
  {}

  lemma CapitalsFromT()
    ensures Octet('T' as nat) == 0x54 && Octet('U' as nat) == 0x55
  {}

  lemma Signs()
    ensures Octet(' ' as nat) == 0x20 && Octet('*' as nat) == 0x2a && Octet('.' as nat) == 0x2e && Octet('/' as nat) == 0x2f
  {}

  lemma Digits()
    ensures Octet('0' as nat) == 0x30 && Octet('1' as nat) == 0x31 && Octet('2' as nat) == 0x32
  {}

  lemma AsciiStarts()
    ensures Ascii("GET ") == [0x47, 0x45, 0x54, 0x20] && Ascii("POST ") == [0x50, 0x4f, 0x53, 0x54, 0x20]
    ensures Ascii("PUT ") == [0x50, 0x55, 0x54, 0x20] && Ascii("DELETE ") == [0x44, 0x45, 0x4c, 0x45, 0x54, 0x45, 0x20]
    ensures Ascii("PATCH ") == [0x50, 0x41, 0x54, 0x43, 0x48, 0x20]
    ensures Ascii("HTTP/1.") == [0x48, 0x54, 0x54, 0x50, 0x2f, 0x31, 0x2e]
    ensures Ascii("PRI * HTTP/2.0")
         == [0x50, 0x52, 0x49, 0x20, 0x2a, 0x20, 0x48, 0x54, 0x54, 0x50, 0x2f, 0x32, 0x2e, 0x30]
  {
    hide Octet;
    CapitalsToE();
    CapitalsToL();
    CapitalsFromO();
    CapitalsFromT();
    Signs();
    Digits();
  }

  lemma HttpStarts(payload: seq<bv8>)
    ensures StartsHttp(payload) <==> HttpStart(payload)
  {
    AsciiStarts();
    hide Ascii;
    if HttpStart(payload) {
      assert HTTP_STARTS[0] == "GET " && HTTP_STARTS[1] == "POST " && HTTP_STARTS[2] == "PUT " && HTTP_STARTS[3] == "DELETE ";
      assert HTTP_STARTS[4] == "PATCH " && HTTP_STARTS[5] == "HTTP/1." && HTTP_STARTS[6] == "PRI * HTTP/2.0";
    }
  }

  /** The reader's labels are those due. */
  lemma LabelsAreDue(srcPort: Port, dstPort: Port, payload: seq<bv8>)
    ensures TcpLabel(srcPort, dstPort, payload) == DueTcp(srcPort, dstPort, payload)
    ensures UdpLabel(srcPort, dstPort, payload) == DueUdp(srcPort, dstPort, payload)
  {
    hide StartsHttp, HttpStart;
    HttpStarts(payload);
  }

  /** Of a UDP datagram: the ports come first, then two starts of the payload. */
  lemma UdpLabels(e: Event, transport: seq<bv8>)
    requires |transport| >= 8 && e.proto == 17
    ensures
      var src, dst, payload := GetBe16(transport, 0), GetBe16(transport, 2), transport[8..];
      var voice := src == 5004 || src == 5005 || dst == 5004 || dst == 5005;
      var xn := |payload| >= 3 && payload[..2] == [0x58, 0x4e];
      var rrc := |payload| >= 4 && payload[..3] == [0x52, 0x52, 0x43];
      var r := TransportEvent(e, transport);
      && r.Done?
      && r.value == e.(srcPort := src, dstPort := dst, protocol := r.value.protocol)
      && (r.value.protocol == Rtp <==> voice)
      && (r.value.protocol == Xnap <==> !voice && xn)
      && (r.value.protocol == Rrc <==> !voice && rrc)
      && (r.value.protocol == Udp <==> !voice && !xn && !rrc)
  {
    hide GetBe16;
  }

  /** Of a TCP segment: a start of its payload, or one of nine ports at either end. */
  lemma TcpLabels(e: Event, transport: seq<bv8>)
    requires |transport| >= 4 && e.proto == 6
    ensures
      var src, dst, payload := GetBe16(transport, 0), GetBe16(transport, 2), TcpPayload(transport);
      var ports := {7777, 29502, 29518, 29509, 29505, 29503, 29504, 29507, 29510};
      var http :=
        || src in ports || dst in ports
        || [0x47, 0x45, 0x54, 0x20] <= payload || [0x50, 0x4f, 0x53, 0x54, 0x20] <= payload
        || [0x50, 0x55, 0x54, 0x20] <= payload || [0x44, 0x45, 0x4c, 0x45, 0x54, 0x45, 0x20] <= payload
        || [0x50, 0x41, 0x54, 0x43, 0x48, 0x20] <= payload || [0x48, 0x54, 0x54, 0x50, 0x2f, 0x31, 0x2e] <= payload
        || [0x50, 0x52, 0x49, 0x20, 0x2a, 0x20, 0x48, 0x54, 0x54, 0x50, 0x2f, 0x32, 0x2e, 0x30] <= payload;
      var r := TransportEvent(e, transport);
      && r.Done?
      && r.value == e.(srcPort := src, dstPort := dst, protocol := r.value.protocol)
      && (r.value.protocol == Http <==> http)
      && (r.value.protocol == Tcp <==> !http)
  {
    hide GetBe16, TcpPayload, StartsHttp;
    HttpStarts(TcpPayload(transport));
  }

  /** A TCP header's length is the high half of its byte 12, in words of four bytes. */
  lemma TcpHeader(transport: seq<bv8>, words: nat)
    requires |transport| >= 13 && words < 16 && transport[12] >> 4 == words as bv8
    ensures TcpPayload(transport) == if 4 * words <= |transport| then transport[4 * words..] else []
    ensures forall n: nat | n <= 12 :: TcpPayload(transport[..n]) == []
  {
    SmallNumber(words);
  }

  /** An IP packet is shown exactly when it holds a whole header: 20 bytes of version 4, 40 of version 6. */
  lemma HeaderNeeded(sec: nat, usec: nat, ip: seq<bv8>, raw: seq<bv8>)
    ensures IpEvent(sec, usec, ip, 0x0800, raw) == Done(None) <==> |ip| < 20
    ensures IpEvent(sec, usec, ip, 0x86dd, raw) == Done(None) <==> |ip| < 40
  {
    hide TransportEvent, AfterHeader;
  }

  /** Protocol and addresses stand at bytes 9, 12 and 16 of a version 4 header and at 6, 8 and 24 of a version 6 one. */
  lemma HeaderFields(sec: nat, usec: nat, ip: seq<bv8>, raw: seq<bv8>)
    ensures
      var r := IpEvent(sec, usec, ip, 0x0800, raw);
      |ip| >= 20 && r.Done? ==> r.value.value.proto == ip[9] && r.value.value.src == ip[12..16] && r.value.value.dst == ip[16..20]
                                && r.value.value.sec == sec && r.value.value.usec == usec && r.value.value.raw == raw
    ensures
      var r := IpEvent(sec, usec, ip, 0x86dd, raw);
      |ip| >= 40 && r.Done? ==> r.value.value.proto == ip[6] && r.value.value.src == ip[8..24] && r.value.value.dst == ip[24..40]
                                && r.value.value.sec == sec && r.value.value.usec == usec && r.value.value.raw == raw
  {
    hide NgapPayloads, GetBe16, TcpPayload, TcpLabel, UdpLabel, AfterHeader;
  }

  lemma SmallNumber(n: nat)
    requires n < 16
    ensures n as bv8 as nat == n
  {}

  /** Other protocols by their number; short UDP, TCP and SCTP headers leave the label of the protocol. */
  lemma OtherLabels(e: Event, transport: seq<bv8>)
    ensures e.proto == 1 ==> TransportEvent(e, transport) == Done(e.(protocol := Icmp))
    ensures e.proto == 6 && |transport| < 4 ==> TransportEvent(e, transport) == Done(e.(protocol := Tcp))
    ensures e.proto == 17 && |transport| < 8 ==> TransportEvent(e, transport) == Done(e.(protocol := Udp))
    ensures e.proto == 132 && |transport| < 12 ==> TransportEvent(e, transport) == Done(e.(protocol := Sctp))
    ensures e.proto == 132 && |transport| >= 12 && TransportEvent(e, transport).Done? ==>
              TransportEvent(e, transport).value.protocol == if TransportEvent(e, transport).value.ngap == [] then Sctp else Ngap
    ensures e.proto != 1 && e.proto != 6 && e.proto != 17 && e.proto != 132 ==> TransportEvent(e, transport) == Done(e)
  {
    hide NgapPayloads, GetBe16;
  }

  /** The message with which the emulator begins a connection, an RRCSetupRequest to port 9999, is shown as RRC. */
  lemma SetupRequestShown(e: Event)
    requires e.proto == 17
    ensures
      var r := TransportEvent(e, [0x27, 0x0f, 0x27, 0x0f, 0, 12, 0, 0, 0x52, 0x52, 0x43, 0x01]);
      r.Done? && r.value.srcPort == r.value.dstPort == 9999 && r.value.protocol == Rrc
  {
    var transport: seq<bv8> := [0x27, 0x0f, 0x27, 0x0f, 0, 12, 0, 0, 0x52, 0x52, 0x43, 0x01];
    assert GetBe16(transport, 0) == GetBe16(transport, 2) == 9999;
    assert transport[8..][..3] == [0x52, 0x52, 0x43];
    UdpLabels(e, transport);
  }

  // ---------- the last filter ----------

  /** Four labels are shown and six are not. */
  predicate ShownLabel(protocol: Protocol) {
    match protocol
    case Ngap => true
    case Http => true
    case Xnap => true
    case Rrc => true
    case Ip => false
    case Icmp => false
    case Tcp => false
    case Udp => false
    case Rtp => false
    case Sctp => false
  }

  /** What the reader shows of a file is, in order, its events with one of those labels. */
  lemma LastFilter(file: seq<bv8>)
    ensures FileEvents(file).Done? <==> ShownEvents(file).Done?
    ensures FileEvents(file).Done? && FileEvents(file).value.None? ==> ShownEvents(file) == Done(None)
    ensures FileEvents(file).Done? && FileEvents(file).value.Some? ==>
              ShownEvents(file) == Done(Some(Labelled(FileEvents(file).value.value)))
  {
    hide FileEvents;
    if FileEvents(file).Done? && FileEvents(file).value.Some? { FilteredIs(FileEvents(file).value.value); }
  }

  function Labelled(events: seq<Event>): seq<Event> {
    if events == [] then []
    else if ShownLabel(events[0].protocol) then [events[0]] + Labelled(events[1..])
    else Labelled(events[1..])
  }

  lemma {:induction false} FilteredIs(events: seq<Event>)
    ensures Filtered(events) == Labelled(events)
  {
    hide Kept, ShownLabel;
    if events != [] {
      FilteredIs(events[1..]);
      KeptIs(events[0]);
    }
  }

  lemma KeptIs(e: Event)
    ensures Kept(e) <==> ShownLabel(e.protocol)
  {}

  // ---------- the capture filter ----------

  /** The letters of one of the four names, in either case. */
  predicate Spells(text: string, upper: string, lower: string)
    requires |upper| == |lower|
  {
    |text| == |lower| && forall i | 0 <= i < |text| :: text[i] == upper[i] || text[i] == lower[i]
  }

  /** What a capture filter lets through, by protocol number. */
  predicate LetThrough(filter: string, proto: bv8) {
    || filter == ""
    || filter == "all"
    || (proto == 1 && Spells(filter, "ICMP", "icmp"))
    || (proto == 6 && Spells(filter, "TCP", "tcp"))
    || (proto == 17 && Spells(filter, "UDP", "udp"))
    || (proto == 132 && Spells(filter, "SCTP", "sctp"))
  }

  lemma LowerIs(text: string, upper: string, lower: string)
    requires |upper| == |lower|
    requires forall i | 0 <= i < |upper| :: 'A' <= upper[i] <= 'Z' && upper[i] as int + 32 == lower[i] as int
    ensures Lower(text) == lower <==> Spells(text, upper, lower)
  {
    if Spells(text, upper, lower) {
      forall i | 0 <= i < |text| ensures Lower(text)[i] == lower[i] {
        CaseFolded(text[i], upper[i], lower[i]);
      }
    } else if Lower(text) == lower {
      forall i | 0 <= i < |text| ensures text[i] == upper[i] || text[i] == lower[i] {
        assert Lower(text)[i] == lower[i];
        CaseFolded(text[i], upper[i], lower[i]);
      }
    }
  }

  lemma CaseFolded(c: char, upper: char, lower: char)
    requires 'A' <= upper <= 'Z' && upper as int + 32 == lower as int
    ensures (if 'A' <= c <= 'Z' then (c as int + 32) as char else c) == lower <==> c == upper || c == lower
  {}

  /** The filter is "all" or nothing, or one of four names in any case of letters; any other text lets nothing through. */
  lemma FilterLets(filter: string, proto: bv8)
    ensures MatchesProtocol(proto, filter) <==> LetThrough(filter, proto)
  {
    hide Lower, Spells;
    LowerIs(filter, "ICMP", "icmp");
    LowerIs(filter, "TCP", "tcp");
    LowerIs(filter, "UDP", "udp");
    LowerIs(filter, "SCTP", "sctp");
  }

  /** The number the filter is held against is byte 9 of a version 4 header and byte 6 of a version 6 one. */
  lemma ProtocolNumber(ip: seq<bv8>)
    ensures IpProtocol(ip, 0x0800) == if |ip| >= 20 then ip[9] else 0
    ensures IpProtocol(ip, 0x86dd) == if |ip| >= 40 then ip[6] else 0
  {}

  /** Each name lets one protocol through, whatever the case of its letters; a name cut short, or "ALL", none. */
  lemma OnlyNamed(proto: bv8)
    ensures LetThrough("icmp", proto) <==> proto == 1
    ensures LetThrough("tcp", proto) <==> proto == 6
    ensures LetThrough("udp", proto) <==> proto == 17
    ensures LetThrough("sctp", proto) <==> proto == 132
    ensures LetThrough("Tcp", proto) <==> proto == 6
    ensures !LetThrough("tc", proto) && !LetThrough("ALL", proto)
  {
    assert "icmp"[0] == 'i' && "tcp"[0] == 't' && "udp"[0] == 'u' && "sctp"[0] == 's' && "Tcp"[0] == 'T' && "ALL"[0] == 'A';
  }
}
