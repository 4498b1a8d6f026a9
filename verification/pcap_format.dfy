/** The capture format of internal/webserver/diagnostics_handler.go: what the writer lays down and what the reader finds. */
module PcapFormat {
  import opened Bits
  import opened Common

  type Port = x: nat | x < 65536

  // ---------- numbers in bytes ----------

  function Octet(v: nat): bv8 { (v % 256) as bv8 }

  function Be16(v: nat): (r: seq<bv8>)
    ensures |r| == 2
  {
    [Octet(v / 256), Octet(v)]
  }

  function Be32(v: nat): (r: seq<bv8>)
    ensures |r| == 4
  {
    Be16(v / 65536) + Be16(v)
  }

  function Le16(v: nat): (r: seq<bv8>)
    ensures |r| == 2
  {
    [Octet(v), Octet(v / 256)]
  }

  function Le32(v: nat): (r: seq<bv8>)
    ensures |r| == 4
  {
    Le16(v) + Le16(v / 65536)
  }

  function GetBe16(s: seq<bv8>, i: nat): (v: Port)
    requires i + 2 <= |s|
  {
    OctetBound(s[i]);
    OctetBound(s[i + 1]);
    s[i] as nat * 256 + s[i + 1] as nat
  }

  function GetBe32(s: seq<bv8>, i: nat): nat
    requires i + 4 <= |s|
  {
    GetBe16(s, i) * 65536 + GetBe16(s, i + 2)
  }

  function GetLe16(s: seq<bv8>, i: nat): (v: Port)
    requires i + 2 <= |s|
  {
    OctetBound(s[i]);
    OctetBound(s[i + 1]);
    s[i + 1] as nat * 256 + s[i] as nat
  }

  function GetLe32(s: seq<bv8>, i: nat): (v: nat)
    requires i + 4 <= |s|
    ensures v < 0x1_0000_0000
  {
    GetLe16(s, i + 2) * 65536 + GetLe16(s, i)
  }

  lemma OctetBound(b: bv8)
    ensures b as nat < 256
  {}

  lemma OctetBack(v: nat)
    ensures Octet(v) as nat == v % 256
  {
    ByteFromNat(v % 256);
  }

  lemma HalvesBack(v: nat)
    ensures v / 256 % 256 * 256 + v % 256 == v % 65536
  {}

  lemma Be16Back(s: seq<bv8>, i: nat, v: nat)
    requires i + 2 <= |s| && s[i..i + 2] == Be16(v)
    ensures GetBe16(s, i) == v % 65536
  {
    assert s[i] == s[i..i + 2][0] && s[i + 1] == s[i..i + 2][1];
    hide Octet;
    OctetBack(v / 256);
    OctetBack(v);
    HalvesBack(v);
  }

  lemma Le16Back(s: seq<bv8>, i: nat, v: nat)
    requires i + 2 <= |s| && s[i..i + 2] == Le16(v)
    ensures GetLe16(s, i) == v % 65536
  {
    assert s[i] == s[i..i + 2][0] && s[i + 1] == s[i..i + 2][1];
    hide Octet;
    OctetBack(v / 256);
    OctetBack(v);
    HalvesBack(v);
  }

  lemma WordBack(v: nat)
    ensures v / 65536 % 65536 * 65536 + v % 65536 == v % 0x1_0000_0000
  {}

  lemma Be32Back(s: seq<bv8>, i: nat, v: nat)
    requires i + 4 <= |s| && s[i..i + 4] == Be32(v)
    ensures GetBe32(s, i) == v % 0x1_0000_0000
  {
    hide Be16, GetBe16;
    assert s[i..i + 2] == s[i..i + 4][..2] && s[i + 2..i + 4] == s[i..i + 4][2..];
    Be16Back(s, i, v / 65536);
    Be16Back(s, i + 2, v);
    WordBack(v);
  }

  lemma Le32Back(s: seq<bv8>, i: nat, v: nat)
    requires i + 4 <= |s| && s[i..i + 4] == Le32(v)
    ensures GetLe32(s, i) == v % 0x1_0000_0000
  {
    hide Le16, GetLe16;
    assert s[i..i + 2] == s[i..i + 4][..2] && s[i + 2..i + 4] == s[i..i + 4][2..];
    Le16Back(s, i, v);
    Le16Back(s, i + 2, v / 65536);
    WordBack(v);
  }

  // ---------- what the writer lays down ----------

  type Address = s: seq<bv8> | |s| == 4 witness [127, 0, 0, 1]

  const LOCALHOST: Address := [127, 0, 0, 1]

  const ICMP: bv8 := 1
  const TCP: bv8 := 6
  const UDP: bv8 := 17
  const SCTP: bv8 := 132

  /** A packet to capture; an address that does not parse as IPv4 is None. */
  datatype Packet = Packet(src: Option<Address>, dst: Option<Address>, srcPort: Port, dstPort: Port, proto: bv8,
                           payload: seq<bv8>, sec: nat, usec: nat) {
    function Src(): Address { if src.Some? then src.value else LOCALHOST }
    function Dst(): Address { if dst.Some? then dst.value else LOCALHOST }

    function IpHeader(): (r: seq<bv8>)
      ensures |r| == 20
    {
      [0x45, 0] + Be16(20 + 8 + |payload|) + [0, 0, 0, 0, 64, proto, 0, 0] + Src() + Dst()
    }

    function Transport(): (r: seq<bv8>)
      ensures |r| == if proto == UDP then 8 else if proto == TCP then 20 else if proto == SCTP then 28 else 0
    {
      if proto == UDP then Be16(srcPort) + Be16(dstPort) + Be16(8 + |payload|) + [0, 0]
      else if proto == TCP then Be16(srcPort) + Be16(dstPort) + [0, 0, 0, 0, 0, 0, 0, 0] + [0x50, 0, 0, 0, 0, 0, 0, 0]
      else if proto == SCTP then
        Be16(srcPort) + Be16(dstPort) + [0, 0, 0, 0, 0, 0, 0, 0] + ChunkHeader()
      else []
    }

    /** A DATA chunk with its length and the NGAP payload protocol. */
    function ChunkHeader(): (r: seq<bv8>)
      ensures |r| == 16
    {
      [0, 7] + Be16(16 + |payload|) + [0, 0, 0, 0, 0, 0, 0, 0] + Be32(60)
    }

    /** The IP packet. */
    function Ip(): (r: seq<bv8>)
      ensures |r| == 20 + |Transport()| + |payload|
    {
      IpHeader() + Transport() + payload
    }

    function Frame(): (r: seq<bv8>)
      ensures |r| == 34 + |Transport()| + |payload|
    {
      Wrapped(Ip(), 0x0800)
    }
  }

  /** The two hardware addresses every frame is given. */
  const MACS: seq<bv8> := [0, 0, 0, 0, 0, 2, 0, 0, 0, 0, 0, 1]

  /** An IP packet in an Ethernet frame. */
  function Wrapped(ip: seq<bv8>, etherType: nat): (r: seq<bv8>)
    ensures |r| == 14 + |ip|
  {
    MACS + Be16(etherType) + ip
  }

  /** What goes into a capture file: a packet the emulator builds, or one received from the raw socket. */
  datatype Capture =
    | Simulated(packet: Packet)
    | Received(sec: nat, usec: nat, ip: seq<bv8>, etherType: nat)
  {
    function Sec(): nat { if Simulated? then packet.sec else sec }
    function Usec(): nat { if Simulated? then packet.usec else usec }
    function Frame(): seq<bv8> { if Simulated? then packet.Frame() else Wrapped(ip, etherType) }

    /** A record of the capture file. */
    function Record(): (r: seq<bv8>)
      ensures |r| == 16 + |Frame()|
    {
      Le32(Sec()) + Le32(Usec()) + Le32(|Frame()|) + Le32(|Frame()|) + Frame()
    }

    /** What the receive buffer and the layer guess leave of a received packet. */
    predicate Sound() {
      Received? ==> 0 < |ip| <= 65535 && IpVersion(etherType, ip[0])
    }
  }

  const GLOBAL_HEADER: seq<bv8> :=
    Le32(0xa1b2c3d4) + Le16(2) + Le16(4) + Le32(0) + Le32(0) + Le32(65535) + Le32(1)

  function RecordsOf(captures: seq<Capture>): seq<bv8> {
    if captures == [] then [] else captures[0].Record() + RecordsOf(captures[1..])
  }

  /** The file after these captures. */
  function CaptureFile(captures: seq<Capture>): seq<bv8> {
    GLOBAL_HEADER + RecordsOf(captures)
  }

  lemma {:induction false} RecordsSnoc(captures: seq<Capture>, c: Capture)
    ensures RecordsOf(captures + [c]) == RecordsOf(captures) + c.Record()
  {
    hide c.Record;
    if captures == [] {
      assert [c][1..] == [];
    } else {
      RecordsSnoc(captures[1..], c);
      assert (captures + [c])[1..] == captures[1..] + [c] && (captures + [c])[0] == captures[0];
      Joined(captures[0].Record(), RecordsOf(captures[1..]), c.Record());
    }
  }

  lemma Joined(a: seq<bv8>, b: seq<bv8>, c: seq<bv8>)
    ensures a + b + c == a + (b + c)
  {}

  // ---------- what the reader finds ----------

  /** How reading ends: with a result, with a slice out of range, or never. */
  datatype Outcome<T> = Done(value: T) | Panics | Hangs

  /** Where the IP packet starts in a captured frame, and which version it is. */
  datatype Layer = At(start: nat, etherType: nat) | NotIp

  function Version(b: bv8): bv8 { b >> 4 }

  predicate IpVersion(etherType: nat, b: bv8) {
    (etherType == 0x0800 && Version(b) == 4) || (etherType == 0x86dd && Version(b) == 6)
  }

  predicate Family(v: nat) { v == 24 || v == 28 || v == 30 }

  function ParsePacket(data: seq<bv8>): (r: Outcome<Layer>)
    ensures r.Done? && r.value.At? ==> r.value.start < |data| && IpVersion(r.value.etherType, data[r.value.start])
    ensures r.Panics? ==> |data| == 14 || |data| == 16
    ensures r == Done(NotIp) ==> |data| < 20 || (Version(data[0]) != 4 && Version(data[0]) != 6)
    ensures !r.Hangs?
  {
    if |data| >= 24 && (GetLe32(data, 0) == 2 || GetBe32(data, 0) == 2) && Version(data[4]) == 4 then Done(At(4, 0x0800))
    else if |data| >= 24 && (Family(GetLe32(data, 0)) || Family(GetBe32(data, 0))) && Version(data[4]) == 6 then Done(At(4, 0x86dd))
    else if |data| == 16 && GetBe16(data, 14) in {0x0800, 0x86dd} then Panics // data[16] is out of range
    else if |data| > 16 && IpVersion(GetBe16(data, 14), data[16]) then Done(At(16, GetBe16(data, 14)))
    else if |data| == 14 && GetBe16(data, 12) in {0x0800, 0x86dd} then Panics // data[14] is out of range
    else if |data| > 14 && IpVersion(GetBe16(data, 12), data[14]) then Done(At(14, GetBe16(data, 12)))
    else if |data| >= 40 && IpVersion(GetBe16(data, 0), data[20]) then Done(At(20, GetBe16(data, 0)))
    else if |data| >= 20 && Version(data[0]) == 4 then Done(At(0, 0x0800))
    else if |data| >= 20 && Version(data[0]) == 6 then Done(At(0, 0x86dd))
    else Done(NotIp)
  }

  /** The link layers a frame may have. */
  datatype Link = Loopback | Cooked | Ethernet | Cooked2 | Bare

  function HeaderLength(link: Link): nat {
    match link
    case Loopback => 4
    case Cooked => 16
    case Ethernet => 14
    case Cooked2 => 20
    case Bare => 0
  }

  /** What a frame must hold for its layer to be taken for this one: a packet of the version its header announces. */
  predicate Announces(link: Link, data: seq<bv8>, etherType: nat) {
    && |data| > HeaderLength(link) && IpVersion(etherType, data[HeaderLength(link)])
    && match link
       case Loopback =>
         |data| >= 24 && if etherType == 0x0800 then GetLe32(data, 0) == 2 || GetBe32(data, 0) == 2
                         else GetLe32(data, 0) in {24, 28, 30} || GetBe32(data, 0) in {24, 28, 30}
       case Cooked => GetBe16(data, 14) == etherType
       case Ethernet => GetBe16(data, 12) == etherType
       case Cooked2 => |data| >= 40 && GetBe16(data, 0) == etherType
       case Bare => |data| >= 20
  }

  predicate Holds(link: Link, data: seq<bv8>) { Announces(link, data, 0x0800) || Announces(link, data, 0x86dd) }

  /** Which guesses come before which. */
  predicate Before(link: Link, other: Link) {
    match other
    case Loopback => false
    case Cooked => link == Loopback
    case Ethernet => link == Loopback || link == Cooked
    case Cooked2 => link == Loopback || link == Cooked || link == Ethernet
    case Bare => link != Bare
  }

  /** The layer is that of the first guess for which the frame holds such a packet. */
  lemma FirstGuess(data: seq<bv8>, link: Link, etherType: nat)
    requires ParsePacket(data).Done?
    ensures ParsePacket(data) == Done(At(HeaderLength(link), etherType))
            <==> Announces(link, data, etherType) && forall earlier | Before(earlier, link) :: !Holds(earlier, data)
  {
    hide GetLe32, GetBe32, GetBe16, Version;
    assert Before(Loopback, Bare) && Before(Cooked, Bare) && Before(Ethernet, Bare) && Before(Cooked2, Bare);
    assert Before(Loopback, Cooked2) && Before(Cooked, Cooked2) && Before(Ethernet, Cooked2);
    assert Before(Loopback, Ethernet) && Before(Cooked, Ethernet) && Before(Loopback, Cooked);
  }

  /** No layer is found exactly when there is none. */
  lemma NoGuess(data: seq<bv8>)
    requires ParsePacket(data).Done?
    ensures ParsePacket(data) == Done(NotIp) <==> forall link :: !Holds(link, data)
  {
    hide GetLe32, GetBe32, GetBe16, Version;
    assert ParsePacket(data) != Done(NotIp) ==> exists link :: Holds(link, data) by {
      if Holds(Loopback, data) || Holds(Cooked, data) || Holds(Ethernet, data) || Holds(Cooked2, data) || Holds(Bare, data) {}
    }
  }

  /** `(chunkLen + 3) &^ 3` in 16 bits. */
  function AlignedLen(chunkLen: Port): (r: Port)
    ensures r == 0 <==> chunkLen == 0 || chunkLen > 65532
    ensures chunkLen <= 65532 ==> chunkLen <= r < chunkLen + 4 && r % 4 == 0
  {
    (chunkLen + 3) % 65536 / 4 * 4
  }

  /** What an SCTP chunk list hands to the NGAP decoder, in order. */
  function NgapPayloads(chunks: seq<bv8>): (r: Outcome<seq<seq<bv8>>>)
    ensures r.Done? ==> forall i | 0 <= i < |r.value| :: |r.value[i]| <= 65516
  {
    if |chunks| < 4 then Done([])
    else
      var chunkLen := GetBe16(chunks, 2);
      if chunkLen < 4 then Done([])
      else
        var ngap := chunks[0] == 0 && |chunks| >= 16 && GetBe32(chunks, 12) == 60;
        if ngap && !(16 <= chunkLen <= |chunks|) then Panics
        else
          var handed := if ngap then [chunks[16..chunkLen]] else [];
          if AlignedLen(chunkLen) == 0 then Hangs // the chunk list stays as it is
          else if AlignedLen(chunkLen) > |chunks| then Done(handed)
          else
            match NgapPayloads(chunks[AlignedLen(chunkLen)..])
            case Done(rest) => Done(handed + rest)
            case Panics => Panics
            case Hangs => Hangs
  }

  // ---------- the layers above ----------

  function IpProtocol(ip: seq<bv8>, etherType: nat): bv8 {
    if etherType == 0x0800 && |ip| >= 20 then ip[9]
    else if etherType == 0x86dd && |ip| >= 40 then ip[6]
    else 0
  }

  function Lower(text: string): (r: string)
    ensures |r| == |text|
  {
    seq(|text|, i requires 0 <= i < |text| => if 'A' <= text[i] <= 'Z' then (text[i] as int + 32) as char else text[i])
  }

  /** Whether a capture filter lets an IP protocol through. */
  predicate MatchesProtocol(proto: bv8, filter: string) {
    filter == "" || filter == "all" || (Lower(filter) == "icmp" && proto == ICMP) || (Lower(filter) == "tcp" && proto == TCP)
    || (Lower(filter) == "udp" && proto == UDP) || (Lower(filter) == "sctp" && proto == SCTP)
  }

  datatype Protocol = Ip | Icmp | Tcp | Http | Udp | Rtp | Xnap | Rrc | Sctp | Ngap

  /** What a record shows: times, addresses, ports, protocol, what the NGAP decoder is given, and the frame. */
  datatype Event = Event(sec: nat, usec: nat, protocol: Protocol, proto: bv8, src: seq<bv8>, srcPort: Port,
                         dst: seq<bv8>, dstPort: Port, ngap: seq<seq<bv8>>, raw: seq<bv8>)

  function Ascii(text: string): seq<bv8> {
    seq(|text|, i requires 0 <= i < |text| => Octet(text[i] as nat))
  }

  const HTTP_STARTS: seq<string> := ["GET ", "POST ", "PUT ", "DELETE ", "PATCH ", "HTTP/1.", "PRI * HTTP/2.0"]

  const SBI_PORTS: set<nat> := {7777, 29502, 29518, 29509, 29505, 29503, 29504, 29507, 29510}

  /** What follows the TCP header, none when the header is short or its length past the end. */
  function TcpPayload(transport: seq<bv8>): seq<bv8> {
    if |transport| < 13 then []
    else
      OctetBound(Version(transport[12]));
      var tcpHeaderLen := Version(transport[12]) as nat * 4;
      if |transport| >= tcpHeaderLen then transport[tcpHeaderLen..] else []
  }

  predicate StartsHttp(payload: seq<bv8>) {
    exists i | 0 <= i < |HTTP_STARTS| :: Ascii(HTTP_STARTS[i]) <= payload
  }

  function TcpLabel(srcPort: Port, dstPort: Port, payload: seq<bv8>): Protocol {
    if StartsHttp(payload) || srcPort in SBI_PORTS || dstPort in SBI_PORTS then Http else Tcp
  }

  function UdpLabel(srcPort: Port, dstPort: Port, payload: seq<bv8>): Protocol {
    if srcPort in {5004, 5005} || dstPort in {5004, 5005} then Rtp
    else if |payload| >= 3 && payload[0] == 0x58 && payload[1] == 0x4e then Xnap
    else if |payload| >= 4 && payload[0] == 0x52 && payload[1] == 0x52 && payload[2] == 0x43 then Rrc
    else Udp
  }

  /** The octets after the IP header of a version 4 packet, none when the header length is past its end. */
  function AfterHeader(ip: seq<bv8>): seq<bv8>
    requires |ip| >= 20
  {
    OctetBound(ip[0] & 0x0f);
    var ipHeaderLen := (ip[0] & 0x0f) as nat * 4;
    if |ip| >= ipHeaderLen then ip[ipHeaderLen..] else []
  }

  function TcpEvent(e: Event, transport: seq<bv8>): Event {
    if |transport| < 4 then e.(protocol := Tcp)
    else
      var srcPort, dstPort := GetBe16(transport, 0), GetBe16(transport, 2);
      e.(srcPort := srcPort, dstPort := dstPort, protocol := TcpLabel(srcPort, dstPort, TcpPayload(transport)))
  }

  function UdpEvent(e: Event, transport: seq<bv8>): Event {
    if |transport| < 8 then e.(protocol := Udp)
    else
      var srcPort, dstPort := GetBe16(transport, 0), GetBe16(transport, 2);
      e.(srcPort := srcPort, dstPort := dstPort, protocol := UdpLabel(srcPort, dstPort, transport[8..]))
  }

  function SctpEvent(e: Event, transport: seq<bv8>): Outcome<Event> {
    if |transport| < 12 then Done(e.(protocol := Sctp))
    else
      match NgapPayloads(transport[12..])
      case Done(ngap) =>
        Done(e.(srcPort := GetBe16(transport, 0), dstPort := GetBe16(transport, 2), ngap := ngap,
                protocol := if ngap == [] then Sctp else Ngap))
      case Panics => Panics
      case Hangs => Hangs
  }

  /** Label, ports and NGAP payloads out of the transport layer. */
  function TransportEvent(e: Event, transport: seq<bv8>): Outcome<Event> {
    if e.proto == ICMP then Done(e.(protocol := Icmp))
    else if e.proto == TCP then Done(TcpEvent(e, transport))
    else if e.proto == UDP then Done(UdpEvent(e, transport))
    else if e.proto == SCTP then SctpEvent(e, transport)
    else Done(e)
  }

  /** The event of an IP packet in a frame, if it has one. */
  function IpEvent(sec: nat, usec: nat, ip: seq<bv8>, etherType: nat, raw: seq<bv8>): Outcome<Option<Event>> {
    if etherType == 0x0800 && |ip| >= 20 then
      Shown(TransportEvent(Event(sec, usec, Ip, ip[9], ip[12..16], 0, ip[16..20], 0, [], raw), AfterHeader(ip)))
    else if etherType == 0x86dd && |ip| >= 40 then
      Shown(TransportEvent(Event(sec, usec, Ip, ip[6], ip[8..24], 0, ip[24..40], 0, [], raw), ip[40..]))
    else Done(None)
  }

  /** The event of one captured frame, if it has one. */
  function FrameEvent(sec: nat, usec: nat, data: seq<bv8>): Outcome<Option<Event>> {
    match ParsePacket(data)
    case Panics => Panics
    case Hangs => Hangs
    case Done(NotIp) => Done(None)
    case Done(At(start, etherType)) => IpEvent(sec, usec, data[start..], etherType, data)
  }

  /** The sequence of one or no event. */
  function Listed(e: Option<Event>): seq<Event> {
    if e.Some? then [e.value] else []
  }

  function Shown(e: Outcome<Event>): Outcome<Option<Event>> {
    match e
    case Done(event) => Done(Some(event))
    case Panics => Panics
    case Hangs => Hangs
  }

  function Get32(s: seq<bv8>, i: nat, littleEndian: bool): nat
    requires i + 4 <= |s|
  {
    if littleEndian then GetLe32(s, i) else GetBe32(s, i)
  }

  /** The events of the records from here on; a record cut short ends them. */
  function Events(data: seq<bv8>, littleEndian: bool): Outcome<seq<Event>> {
    if |data| < 16 then Done([])
    else
      var inclLen := Get32(data, 8, littleEndian);
      if |data| - 16 < inclLen then Done([])
      else
        match FrameEvent(Get32(data, 0, littleEndian), Get32(data, 4, littleEndian), data[16..16 + inclLen])
        case Panics => Panics
        case Hangs => Hangs
        case Done(first) =>
          match Events(data[16 + inclLen..], littleEndian)
          case Done(rest) => Done(Listed(first) + rest)
          case Panics => Panics
          case Hangs => Hangs
  }

  function Opened(events: Outcome<seq<Event>>): Outcome<Option<seq<Event>>> {
    match events
    case Done(value) => Done(Some(value))
    case Panics => Panics
    case Hangs => Hangs
  }

  /** The events of a capture file, or None when its header is short or its magic number unknown. */
  function FileEvents(file: seq<bv8>): Outcome<Option<seq<Event>>> {
    if |file| < 24 then Done(None)
    else
      var magic := GetLe32(file, 0);
      var littleEndian := magic != 0xd4c3b2a1 && magic != 0x4d3cb2a1;
      if littleEndian && magic != 0xa1b2c3d4 && magic != 0xa1b23c4d then Done(None)
      else
        Opened(Events(file[24..], littleEndian))
  }

  /** The protocols the reader shows. */
  predicate Kept(e: Event) {
    e.protocol in {Ngap, Http, Xnap, Rrc}
  }

  function Filtered(events: seq<Event>): (r: seq<Event>)
    ensures forall e :: e in r <==> e in events && Kept(e)
    ensures (forall e | e in events :: Kept(e)) ==> r == events
  {
    if events == [] then []
    else
      var rest := Filtered(events[1..]);
      assert events == [events[0]] + events[1..];
      if Kept(events[0]) then [events[0]] + rest else rest
  }

  /** What the reader returns for a file: its events through the last filter. */
  function ShownEvents(file: seq<bv8>): Outcome<Option<seq<Event>>> {
    match FileEvents(file)
    case Done(None) => Done(None)
    case Done(Some(events)) => Done(Some(Filtered(events)))
    case Panics => Panics
    case Hangs => Hangs
  }
}
