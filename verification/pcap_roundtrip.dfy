/** What the reader recovers from whatever was captured. */
module PcapRoundTrip {
  import opened Bits
  import opened Common
  import opened PcapFormat
  import opened PcapChunks
  import opened PcapDatagrams
  import opened PcapLabels

  // ---------- what should come back ----------

  /** The frame's length fits its record, and the SCTP chunk's length fits its field and is not rounded up past it. */
  predicate PacketRecoverable(p: Packet) {
    |p.Frame()| < 0x1_0000_0000 && (p.proto == SCTP ==> |p.payload| <= 65516)
  }

  /** What follows the IP header; nothing when the header is short. */
  function TransportOf(ip: seq<bv8>, etherType: nat): seq<bv8> {
    if etherType == 0x0800 && |ip| >= 20 then AfterHeader(ip) else if etherType == 0x86dd && |ip| >= 40 then ip[40..] else []
  }

  /** Going by its chunk headers, a received packet has no SCTP chunk that the reader cannot get past. */
  predicate Scannable(ip: seq<bv8>, etherType: nat) {
    IpProtocol(ip, etherType) == SCTP && |TransportOf(ip, etherType)| >= 12 ==> ChunksFit(TransportOf(ip, etherType)[12..])
  }

  predicate Recoverable(c: Capture) {
    if c.Simulated? then PacketRecoverable(c.packet) else Scannable(c.ip, c.etherType)
  }

  predicate HasPorts(proto: bv8) { proto == TCP || proto == UDP || proto == SCTP }

  function ExpectedProtocol(p: Packet): Protocol {
    if p.proto == ICMP then Icmp
    else if p.proto == TCP then DueTcp(p.srcPort, p.dstPort, p.payload)
    else if p.proto == UDP then DueUdp(p.srcPort, p.dstPort, p.payload)
    else if p.proto == SCTP then Ngap
    else Ip
  }

  /** A packet as the reader should show it. */
  function PacketExpected(p: Packet): Event {
    Event(p.sec % 0x1_0000_0000, p.usec % 0x1_0000_0000, ExpectedProtocol(p), p.proto,
          p.Src(), if HasPorts(p.proto) then p.srcPort else 0, p.Dst(), if HasPorts(p.proto) then p.dstPort else 0,
          if p.proto == SCTP then [p.payload] else [], p.Frame())
  }

  /** A capture as the reader should show it; a received packet whose IP header is short is not shown. */
  function Expected(c: Capture): Option<Event> {
    if c.Simulated? then Some(PacketExpected(c.packet))
    else
      var e := IpEvent(c.sec % 0x1_0000_0000, c.usec % 0x1_0000_0000, c.ip, c.etherType, c.Frame());
      if e.Done? then e.value else None
  }

  function AllExpected(captures: seq<Capture>): seq<Event> {
    if captures == [] then [] else Listed(Expected(captures[0])) + AllExpected(captures[1..])
  }

  // ---------- one frame ----------

  /** Whatever is wrapped is read as Ethernet, if only its version is that of its ether type. */
  lemma FrameIsEthernet(ip: seq<bv8>, etherType: nat)
    requires |ip| > 0 && IpVersion(etherType, ip[0])
    ensures ParsePacket(Wrapped(ip, etherType)) == Done(At(14, etherType))
    ensures Wrapped(ip, etherType)[14..] == ip
  {
    var data := Wrapped(ip, etherType);
    WrappedBytes(ip, etherType);
    hide Version, GetBe16, GetBe32, GetLe32, Wrapped;
    NoFamily(data);
    if |data| >= 16 { NoCooked(data); }
  }

  lemma WrappedBytes(ip: seq<bv8>, etherType: nat)
    requires |ip| > 0 && IpVersion(etherType, ip[0])
    ensures
      var data := Wrapped(ip, etherType);
      data[..4] == [0, 0, 0, 0] && GetBe16(data, 12) == etherType && data[14] == ip[0] && data[14..] == ip
  {
    hide Be16, GetBe16, Version;
    var data := Wrapped(ip, etherType);
    assert data[..12] == MACS && data[12..14] == Be16(etherType) && data[14..] == ip;
    assert data[..4] == data[..12][..4];
    Be16Back(data, 12, etherType);
  }

  lemma NoFamily(data: seq<bv8>)
    requires |data| >= 4 && data[..4] == [0, 0, 0, 0]
    ensures GetLe32(data, 0) == 0 && GetBe32(data, 0) == 0
  {
    assert forall i | 0 <= i < 4 :: data[i] == data[..4][i];
  }

  /** The first byte of an IP packet is not that of an ether type. */
  lemma NoCooked(data: seq<bv8>)
    requires |data| >= 16 && (Version(data[14]) == 4 || Version(data[14]) == 6)
    ensures GetBe16(data, 14) != 0x0800 && GetBe16(data, 14) != 0x86dd
  {
    NibbleApart(data[14]);
    OctetBound(data[15]);
  }

  lemma NibbleApart(b: bv8)
    requires Version(b) == 4 || Version(b) == 6
    ensures b as nat != 0x08 && b as nat != 0x86
  {
    NumberOfByte(b);
  }

  /** A packet received in any frame the reader understands, and put into another, shows the same, but for its frame. */
  lemma Reencapsulated(sec: nat, usec: nat, data: seq<bv8>)
    requires ParsePacket(data).Done? && ParsePacket(data).value.At?
    ensures
      var layer := ParsePacket(data).value;
      var frame := Wrapped(data[layer.start..], layer.etherType);
      FrameEvent(sec, usec, frame) == WithRaw(FrameEvent(sec, usec, data), frame)
  {
    var layer := ParsePacket(data).value;
    var ip := data[layer.start..];
    hide ParsePacket, Wrapped, IpEvent, IpVersion, WithRaw;
    FrameIsEthernet(ip, layer.etherType);
    RawApart(sec, usec, ip, layer.etherType, data, Wrapped(ip, layer.etherType));
  }

  function WithRaw(e: Outcome<Option<Event>>, raw: seq<bv8>): Outcome<Option<Event>> {
    if e.Done? && e.value.Some? then Done(Some(e.value.value.(raw := raw))) else e
  }

  lemma RawApart(sec: nat, usec: nat, ip: seq<bv8>, etherType: nat, raw: seq<bv8>, raw': seq<bv8>)
    ensures IpEvent(sec, usec, ip, etherType, raw') == WithRaw(IpEvent(sec, usec, ip, etherType, raw), raw')
  {
    hide AfterHeader, NgapPayloads, GetBe16, TcpLabel, UdpLabel, TcpPayload;
  }

  /** The IP layer of a written packet. */
  lemma IpLayer(p: Packet)
    ensures
      var ip := p.Ip();
      && |ip| >= 20 && ip[9] == p.proto && ip[12..16] == p.Src() && ip[16..20] == p.Dst()
      && AfterHeader(ip) == p.Transport() + p.payload && IpVersion(0x0800, ip[0])
  {
    hide p.Transport, p.IpHeader;
    var ip, header := p.Ip(), p.IpHeader();
    assert ip == header + (p.Transport() + p.payload);
    assert ip[..20] == header && ip[20..] == p.Transport() + p.payload;
    hide p.Ip;
    HeaderFields(p);
    assert ip[12..16] == ip[..20][12..16] && ip[16..20] == ip[..20][16..20];
    assert ip[0] == header[0] && ip[9] == header[9];
    FiveWords();
  }

  lemma HeaderFields(p: Packet)
    ensures p.IpHeader()[0] == 0x45 && p.IpHeader()[9] == p.proto
    ensures p.IpHeader()[12..16] == p.Src() && p.IpHeader()[16..20] == p.Dst()
  {
    hide Be16;
  }

  lemma FiveWords()
    ensures (0x45 as bv8 & 0x0f) as nat * 4 == 20 && Version(0x45) == 4 && Version(0x50) as nat * 4 == 20
  {}

  /** The transport header gives the ports back. */
  lemma PortsBack(p: Packet)
    requires HasPorts(p.proto)
    ensures GetBe16(p.Transport() + p.payload, 0) == p.srcPort && GetBe16(p.Transport() + p.payload, 2) == p.dstPort
  {
    hide Be16, Be32, GetBe16;
    var t := p.Transport() + p.payload;
    assert t[0..2] == Be16(p.srcPort) && t[2..4] == Be16(p.dstPort);
    Be16Back(t, 0, p.srcPort);
    Be16Back(t, 2, p.dstPort);
  }

  lemma ChunkFields(p: Packet)
    requires p.proto == SCTP
    ensures
      var chunks := (p.Transport() + p.payload)[12..];
      && |chunks| == 16 + |p.payload| && chunks[0] == 0 && chunks[16..] == p.payload
      && GetBe16(chunks, 2) == (16 + |p.payload|) % 65536 && GetBe32(chunks, 12) == 60
  {
    hide Be16, Be32, GetBe16, GetBe32, p.Transport;
    var chunks, head := (p.Transport() + p.payload)[12..], p.ChunkHeader();
    TransportEnd(p);
    assert chunks == head + p.payload;
    assert head[2..4] == Be16(16 + |p.payload|) && head[12..16] == Be32(60);
    hide p.ChunkHeader;
    assert chunks[2..4] == head[2..4] && chunks[12..16] == head[12..16];
    Be16Back(chunks, 2, 16 + |p.payload|);
    Be32Back(chunks, 12, 60);
  }

  lemma TransportEnd(p: Packet)
    requires p.proto == SCTP
    ensures |p.Transport()| == 28 && p.Transport()[12..] == p.ChunkHeader()
  {
    hide Be16, p.ChunkHeader;
  }

  /** The chunk hands exactly the payload to the NGAP decoder, and the loop ends. */
  lemma ChunkBack(p: Packet)
    requires p.proto == SCTP && |p.payload| <= 65516
    ensures NgapPayloads((p.Transport() + p.payload)[12..]) == Done([p.payload])
  {
    hide Be16, GetBe16, GetBe32, p.Transport;
    ChunkFields(p);
    var chunks := (p.Transport() + p.payload)[12..];
    var chunkLen := 16 + |p.payload|;
    assert chunks[16..chunkLen] == p.payload;
    assert AlignedLen(chunkLen) == |chunks| ==> NgapPayloads(chunks[AlignedLen(chunkLen)..]) == Done([]);
    assert [p.payload] + [] == [p.payload];
  }

  /** The TCP header is twenty bytes, so that its payload comes back. */
  lemma TcpBack(p: Packet)
    requires p.proto == TCP
    ensures TcpPayload(p.Transport() + p.payload) == p.payload
  {
    hide Be16, Version;
    var transport := p.Transport() + p.payload;
    assert transport[12] == 0x50 && transport[20..] == p.payload;
    FiveWords();
  }

  /** Ports, protocol and payloads come back from the transport layer. */
  lemma TransportBack(p: Packet, e: Event)
    requires e.proto == p.proto && e.srcPort == e.dstPort == 0 && e.ngap == [] && e.protocol == Ip
    requires p.proto == SCTP ==> |p.payload| <= 65516
    ensures TransportEvent(e, p.Transport() + p.payload)
         == Done(e.(protocol := ExpectedProtocol(p), srcPort := if HasPorts(p.proto) then p.srcPort else 0,
                    dstPort := if HasPorts(p.proto) then p.dstPort else 0,
                    ngap := if p.proto == SCTP then [p.payload] else []))
  {
    hide NgapPayloads, GetBe16, p.Transport, TcpLabel, UdpLabel, DueTcp, DueUdp, TcpPayload;
    TransportSize(p);
    LabelsAreDue(p.srcPort, p.dstPort, p.payload);
    if HasPorts(p.proto) { PortsBack(p); }
    if p.proto == SCTP { ChunkBack(p); }
    if p.proto == TCP { TcpBack(p); }
    if p.proto == UDP { assert (p.Transport() + p.payload)[8..] == p.payload; }
  }

  lemma TransportSize(p: Packet)
    ensures |p.Transport()| == if p.proto == UDP then 8 else if p.proto == TCP then 20 else if p.proto == SCTP then 28 else 0
  {}

  lemma PacketBack(p: Packet, sec: nat, usec: nat)
    requires p.proto == SCTP ==> |p.payload| <= 65516
    ensures FrameEvent(sec, usec, p.Frame()) == Done(Some(PacketExpected(p).(sec := sec, usec := usec)))
  {
    hide ParsePacket, AfterHeader, IpVersion, Wrapped, TransportEvent, ExpectedProtocol, p.Ip, p.Transport, p.Src, p.Dst;
    var ip := p.Ip();
    IpLayer(p);
    FrameIsEthernet(ip, 0x0800);
    TransportBack(p, Event(sec, usec, Ip, ip[9], ip[12..16], 0, ip[16..20], 0, [], p.Frame()));
  }

  /** What the chunk list of a packet decides. */
  lemma PacketOutcome(sec: nat, usec: nat, ip: seq<bv8>, etherType: nat, raw: seq<bv8>)
    ensures IpEvent(sec, usec, ip, etherType, raw).Done? <==> Scannable(ip, etherType)
  {
    hide AfterHeader, NgapPayloads, GetBe16, TcpLabel, UdpLabel, TcpPayload, ChunksFit;
    if |TransportOf(ip, etherType)| >= 12 { WalkDecides(TransportOf(ip, etherType)[12..]); }
  }

  lemma FrameBack(c: Capture)
    requires c.Sound() && Recoverable(c)
    ensures FrameEvent(c.Sec() % 0x1_0000_0000, c.Usec() % 0x1_0000_0000, c.Frame()) == Done(Expected(c))
  {
    hide ParsePacket, IpEvent, PacketExpected, Scannable, Wrapped, IpVersion;
    if c.Simulated? {
      hide FrameEvent;
      PacketBack(c.packet, c.Sec() % 0x1_0000_0000, c.Usec() % 0x1_0000_0000);
      ExpectedTimes(c.packet);
    } else {
      FrameIsEthernet(c.ip, c.etherType);
      PacketOutcome(c.sec % 0x1_0000_0000, c.usec % 0x1_0000_0000, c.ip, c.etherType, c.Frame());
    }
  }

  lemma ExpectedTimes(p: Packet)
    ensures PacketExpected(p).(sec := p.sec % 0x1_0000_0000, usec := p.usec % 0x1_0000_0000) == PacketExpected(p)
  {}

  // ---------- whole files ----------

  lemma RecordFields(c: Capture, rest: seq<bv8>)
    requires |c.Frame()| < 0x1_0000_0000
    ensures
      var data := c.Record() + rest;
      && GetLe32(data, 0) == c.Sec() % 0x1_0000_0000 && GetLe32(data, 4) == c.Usec() % 0x1_0000_0000
      && GetLe32(data, 8) == |c.Frame()| && data[16..16 + |c.Frame()|] == c.Frame() && data[16 + |c.Frame()|..] == rest
  {
    hide Le32, GetLe32, c.Frame, c.Sec, c.Usec;
    var frame, sec, usec := c.Frame(), c.Sec(), c.Usec();
    var data := c.Record() + rest;
    assert data == Le32(sec) + Le32(usec) + Le32(|frame|) + Le32(|frame|) + frame + rest;
    assert data[0..4] == Le32(sec) && data[4..8] == Le32(usec) && data[8..12] == Le32(|frame|);
    Le32Back(data, 0, sec);
    Le32Back(data, 4, usec);
    Le32Back(data, 8, |frame|);
  }

  /** One record in front of others is read as its frame's event in front of theirs. */
  lemma RecordBack(c: Capture, rest: seq<bv8>)
    requires |c.Frame()| < 0x1_0000_0000
    ensures
      var first, events := FrameEvent(c.Sec() % 0x1_0000_0000, c.Usec() % 0x1_0000_0000, c.Frame()), Events(rest, true);
      Events(c.Record() + rest, true)
      == if first.Panics? then Panics
         else if first.Hangs? then Hangs
         else if events.Done? then Done(Listed(first.value) + events.value)
         else events
  {
    hide GetLe32, FrameEvent, c.Frame, c.Record, Listed;
    RecordFields(c, rest);
  }

  /** Too short to be a record. */
  predicate CutShort(tail: seq<bv8>) {
    |tail| < 16 || |tail| - 16 < GetLe32(tail, 8)
  }

  predicate AllSound(captures: seq<Capture>) {
    forall i | 0 <= i < |captures| :: captures[i].Sound()
  }

  predicate AllRecoverable(captures: seq<Capture>) {
    forall i | 0 <= i < |captures| :: Recoverable(captures[i])
  }

  lemma {:induction false} RecordsBack(captures: seq<Capture>, tail: seq<bv8>)
    requires CutShort(tail) && AllSound(captures) && AllRecoverable(captures)
    ensures Events(RecordsOf(captures) + tail, true) == Done(AllExpected(captures))
  {
    if captures == [] {
      assert RecordsOf(captures) + tail == tail;
    } else {
      var c := captures[0];
      RecordsBack(captures[1..], tail);
      assert c.Sound() && Recoverable(c);
      FrameFits(c);
      hide Events, FrameEvent, Expected, c.Frame, c.Record, CutShort, Recoverable, AllRecoverable, AllSound, c.Sound;
      Joined(c.Record(), RecordsOf(captures[1..]), tail);
      FrameBack(c);
      RecordBack(c, RecordsOf(captures[1..]) + tail);
    }
  }

  lemma FrameFits(c: Capture)
    requires c.Sound() && (c.Received? || Recoverable(c))
    ensures |c.Frame()| < 0x1_0000_0000
  {
    hide Scannable, c.packet.Frame, Wrapped, IpVersion;
  }

  /** What any event of any file is limited to. */
  predicate Limited(e: Event) {
    |e.raw| < 0x1_0000_0000 && forall i | 0 <= i < |e.ngap| :: |e.ngap[i]| <= 65516
  }

  lemma FrameLimited(sec: nat, usec: nat, data: seq<bv8>)
    requires |data| < 0x1_0000_0000
    ensures
      var r := FrameEvent(sec, usec, data);
      r.Done? && r.value.Some? ==> Limited(r.value.value)
  {
    hide ParsePacket, NgapPayloads, AfterHeader, GetBe16, TcpLabel, UdpLabel, TcpPayload, IpVersion;
  }

  lemma {:induction false} EventsLimited(data: seq<bv8>, littleEndian: bool)
    ensures Events(data, littleEndian).Done? ==>
              forall i | 0 <= i < |Events(data, littleEndian).value| :: Limited(Events(data, littleEndian).value[i])
    decreases |data|
  {
    hide FrameEvent, GetLe32, GetBe32, Limited;
    if |data| >= 16 {
      var n := Get32(data, 8, littleEndian);
      Get32Bound(data, 8, littleEndian);
      if |data| - 16 >= n {
        FrameLimited(Get32(data, 0, littleEndian), Get32(data, 4, littleEndian), data[16..16 + n]);
        EventsLimited(data[16 + n..], littleEndian);
      }
    }
  }

  lemma Get32Bound(s: seq<bv8>, i: nat, littleEndian: bool)
    requires i + 4 <= |s|
    ensures Get32(s, i, littleEndian) < 0x1_0000_0000
  {
    hide GetBe16, GetLe16;
  }

  lemma LimitedIsRecoverable(p: Packet)
    requires Limited(PacketExpected(p))
    ensures PacketRecoverable(p)
  {
    hide p.Frame;
    if p.proto == SCTP { assert PacketExpected(p).ngap[0] == p.payload; }
  }

  /** Events as expected come only from recoverable captures. */
  lemma {:induction false} RecordsOnlyIf(captures: seq<Capture>)
    requires AllSound(captures) && Events(RecordsOf(captures), true) == Done(AllExpected(captures))
    ensures AllRecoverable(captures)
  {
    if captures != [] {
      var c, rest := captures[0], captures[1..];
      assert c.Sound() && AllSound(rest);
      FirstRecoverable(captures);
      hide Events, FrameEvent, Expected, c.Frame, c.Record, Recoverable, AllSound, c.Sound;
      FrameFits(c);
      FrameBack(c);
      RecordBack(c, RecordsOf(rest));
      SameRest(Listed(Expected(c)), Events(RecordsOf(rest), true).value, AllExpected(rest));
      RecordsOnlyIf(rest);
    }
  }

  lemma SameRest(first: seq<Event>, a: seq<Event>, b: seq<Event>)
    requires first + a == first + b
    ensures a == b
  {
    assert a == (first + a)[|first|..] && b == (first + b)[|first|..];
  }

  lemma FirstRecoverable(captures: seq<Capture>)
    requires captures != [] && captures[0].Sound() && Events(RecordsOf(captures), true) == Done(AllExpected(captures))
    ensures Recoverable(captures[0])
  {
    var c := captures[0];
    if c.Simulated? {
      EventsLimited(RecordsOf(captures), true);
      hide Events, RecordsOf, PacketRecoverable, Limited, PacketExpected;
      assert AllExpected(captures)[0] == PacketExpected(c.packet);
      LimitedIsRecoverable(c.packet);
    } else {
      FrameFits(c);
      PacketOutcome(c.sec % 0x1_0000_0000, c.usec % 0x1_0000_0000, c.ip, c.etherType, c.Frame());
      hide Events, PacketExpected, ParsePacket, IpEvent, Scannable, IpVersion, Wrapped, c.Record;
      FrameIsEthernet(c.ip, c.etherType);
      RecordBack(c, RecordsOf(captures[1..]));
    }
  }

  lemma GlobalHeader(rest: seq<bv8>)
    ensures
      var file := GLOBAL_HEADER + rest;
      |file| >= 24 && GetLe32(file, 0) == 0xa1b2c3d4 && file[24..] == rest
  {
    hide Le32, Le16, GetLe32;
    var file := GLOBAL_HEADER + rest;
    assert file[0..4] == Le32(0xa1b2c3d4);
    Le32Back(file, 0, 0xa1b2c3d4);
  }

  lemma FileRecords(rest: seq<bv8>)
    ensures FileEvents(GLOBAL_HEADER + rest) == Opened(Events(rest, true))
  {
    hide GetLe32, Events, GLOBAL_HEADER, Opened;
    GlobalHeader(rest);
  }

  /** Reading a capture file finds everything captured into it, in order, exactly when each capture is recoverable. */
  lemma FileRoundTrip(captures: seq<Capture>)
    requires AllSound(captures)
    ensures FileEvents(CaptureFile(captures)) == Done(Some(AllExpected(captures))) <==> AllRecoverable(captures)
  {
    hide FileEvents, Events, RecordsOf, GLOBAL_HEADER, AllRecoverable, AllSound, AllExpected, CutShort;
    FileRecords(RecordsOf(captures));
    if AllRecoverable(captures) {
      EmptyTail();
      RecordsBack(captures, []);
      assert RecordsOf(captures) + [] == RecordsOf(captures);
    }
    if Events(RecordsOf(captures), true) == Done(AllExpected(captures)) {
      RecordsOnlyIf(captures);
    }
  }

  lemma EmptyTail()
    ensures CutShort([])
  {}

  /** A file that ends inside a record shows every capture before it. */
  lemma CutFile(captures: seq<Capture>, last: Capture, n: nat)
    requires n < |last.Record()| && |last.Frame()| < 0x1_0000_0000
    requires AllSound(captures) && AllRecoverable(captures)
    ensures FileEvents(CaptureFile(captures) + last.Record()[..n]) == Done(Some(AllExpected(captures)))
  {
    var tail := last.Record()[..n];
    CutRecord(last, n);
    hide FileEvents, Events, RecordsOf, GLOBAL_HEADER, AllRecoverable, AllSound, AllExpected, last.Record, CutShort;
    RecordsBack(captures, tail);
    FileRecords(RecordsOf(captures) + tail);
    Joined(GLOBAL_HEADER, RecordsOf(captures), tail);
  }

  lemma CutRecord(c: Capture, n: nat)
    requires n < |c.Record()| && |c.Frame()| < 0x1_0000_0000
    ensures CutShort(c.Record()[..n])
  {
    hide c.Record, c.Frame, GetLe32;
    if n >= 16 {
      RecordFields(c, []);
      assert c.Record() + [] == c.Record();
      SameLe32(c.Record(), n, 8);
    }
  }

  lemma SameLe32(s: seq<bv8>, n: nat, i: nat)
    requires i + 4 <= n <= |s|
    ensures GetLe32(s[..n], i) == GetLe32(s, i)
  {}

  // ---------- past the last filter ----------

  /** What the reader shows of a file of recoverable captures, and that a packet shown whole was recoverable. */
  lemma FileShown(captures: seq<Capture>)
    requires AllSound(captures)
    ensures AllRecoverable(captures) ==> ShownEvents(CaptureFile(captures)) == Done(Some(Filtered(AllExpected(captures))))
    ensures ShownEvents(CaptureFile(captures)) == Done(Some(Filtered(AllExpected(captures)))) ==>
              forall i | 0 <= i < |captures| && captures[i].Simulated? && Kept(PacketExpected(captures[i].packet)) ::
                Recoverable(captures[i])
  {
    hide FileEvents, AllRecoverable, AllSound, AllExpected, CaptureFile, Filtered, Kept, PacketExpected, PacketRecoverable;
    FileRoundTrip(captures);
    if ShownEvents(CaptureFile(captures)) == Done(Some(Filtered(AllExpected(captures)))) {
      forall i | 0 <= i < |captures| && captures[i].Simulated? && Kept(PacketExpected(captures[i].packet))
        ensures Recoverable(captures[i])
      {
        ShownRecoverable(captures, i);
      }
    }
  }

  lemma ShownRecoverable(captures: seq<Capture>, i: nat)
    requires ShownEvents(CaptureFile(captures)) == Done(Some(Filtered(AllExpected(captures))))
    requires i < |captures| && captures[i].Simulated? && Kept(PacketExpected(captures[i].packet))
    ensures PacketRecoverable(captures[i].packet)
  {
    hide FileEvents, AllExpected, CaptureFile, Filtered, Kept, PacketExpected, PacketRecoverable, Limited;
    var e := PacketExpected(captures[i].packet);
    ExpectedIn(captures, i);
    assert e in Filtered(AllExpected(captures));
    FileLimited(captures, e);
    LimitedIsRecoverable(captures[i].packet);
  }

  lemma {:induction false} ExpectedIn(captures: seq<Capture>, i: nat)
    requires i < |captures| && captures[i].Simulated?
    ensures PacketExpected(captures[i].packet) in AllExpected(captures)
  {
    hide PacketExpected;
    if i > 0 {
      ExpectedIn(captures[1..], i - 1);
    }
  }

  lemma FileLimited(captures: seq<Capture>, e: Event)
    requires var r := FileEvents(CaptureFile(captures)); r.Done? && r.value.Some? && e in r.value.value
    ensures Limited(e)
  {
    hide FileEvents, Events, RecordsOf, GLOBAL_HEADER, Limited;
    FileRecords(RecordsOf(captures));
    EventsLimited(RecordsOf(captures), true);
  }

  /** Of simulated SCTP packets nothing is filtered out: all are shown exactly when all payloads are short enough. */
  lemma SctpShown(captures: seq<Capture>)
    requires forall i | 0 <= i < |captures| :: captures[i].Simulated? && captures[i].packet.proto == SCTP
    ensures ShownEvents(CaptureFile(captures)) == Done(Some(AllExpected(captures))) <==> AllRecoverable(captures)
  {
    assert AllSound(captures);
    SctpKept(captures);
    hide ShownEvents, CaptureFile, Filtered, Kept, PacketExpected, Recoverable, AllExpected, AllSound;
    FileShown(captures);
    forall i | 0 <= i < |captures| ensures Kept(PacketExpected(captures[i].packet)) {
      SctpPacketKept(captures[i].packet);
    }
    assert Filtered(AllExpected(captures)) == AllExpected(captures);
  }

  lemma SctpPacketKept(p: Packet)
    requires p.proto == SCTP
    ensures Kept(PacketExpected(p))
  {
    hide p.Frame, p.Src, p.Dst;
  }

  lemma {:induction false} SctpKept(captures: seq<Capture>)
    requires forall i | 0 <= i < |captures| :: captures[i].Simulated? && captures[i].packet.proto == SCTP
    ensures forall e | e in AllExpected(captures) :: Kept(e)
  {
    hide PacketExpected, Kept;
    if captures != [] {
      SctpKept(captures[1..]);
      SctpPacketKept(captures[0].packet);
    }
  }

  /** The chunk loop never ends on an SCTP packet three bytes over the longest one that it recovers. */
  lemma LongestPayload(p: Packet)
    requires p.proto == SCTP && 65517 <= |p.payload| <= 65519
    ensures NgapPayloads((p.Transport() + p.payload)[12..]) == Hangs
  {
    hide Be16, GetBe16, GetBe32, p.Transport;
    ChunkFields(p);
  }
}
