/** The packet writer and the capture reader of internal/webserver/diagnostics_handler.go. */
module Pcap {
  import opened Bits
  import opened Common
  import opened PcapFormat
  import opened PcapLabels
  import opened PcapRoundTrip

  // ---------- filling headers ----------

  /** PutUint16 and PutUint32 of either byte order, and `copy`: bytes over a header at an offset. */
  method Put(header: array<bv8>, at: nat, x: seq<bv8>)
    requires at + |x| <= header.Length
    modifies header
    ensures forall j | 0 <= j < header.Length :: header[j] == if at <= j < at + |x| then x[j - at] else old(header[j])
  {
    for i := 0 to |x|
      invariant forall j | 0 <= j < header.Length :: header[j] == if at <= j < at + i then x[j - at] else old(header[j])
    {
      header[at + i] := x[i];
    }
  }

  method WritePcapGlobalHeader() returns (r: seq<bv8>)
    ensures r == GLOBAL_HEADER
  {
    hide Le32, Le16;
    var header := new bv8[24](_ => 0);
    Put(header, 0, Le32(0xa1b2c3d4));
    Put(header, 4, Le16(2));
    Put(header, 6, Le16(4));
    Put(header, 8, Le32(0));
    Put(header, 12, Le32(0));
    Put(header, 16, Le32(65535));
    Put(header, 20, Le32(1));
    r := header[..];
  }

  method WritePcapPacketHeader(length: nat, sec: nat, usec: nat) returns (r: seq<bv8>)
    ensures r == Le32(sec) + Le32(usec) + Le32(length) + Le32(length)
  {
    hide Le32;
    var header := new bv8[16](_ => 0);
    Put(header, 0, Le32(sec));
    Put(header, 4, Le32(usec));
    Put(header, 8, Le32(length));
    Put(header, 12, Le32(length));
    r := header[..];
  }

  method WrapInEthernet(data: seq<bv8>, ethType: nat) returns (r: seq<bv8>)
    ensures r == Wrapped(data, ethType)
  {
    hide Be16;
    var eth := new bv8[14 + |data|](_ => 0);
    eth[5] := 0x02;
    eth[11] := 0x01;
    assert eth[..12] == MACS;
    Put(eth, 12, Be16(ethType));
    Put(eth, 14, data);
    r := eth[..];
    assert r == MACS + Be16(ethType) + data;
  }

  // ---------- writing ----------

  function FrameBytes(captures: seq<Capture>): nat {
    if captures == [] then 0 else FrameBytes(captures[..|captures| - 1]) + |captures[|captures| - 1].Frame()|
  }

  /** How opening the capture file and the socket ends: both open, no file, or a file that is removed again. */
  datatype Opening = Opens | NoFile | NoSocket

  /** A received packet passed the capture's filter. */
  predicate PassedFilter(c: Capture, filter: string) {
    c.Received? ==> LetThrough(filter, IpProtocol(c.ip, c.etherType))
  }

  predicate AllPassed(captures: seq<Capture>, filter: string) {
    forall i | 0 <= i < |captures| :: PassedFilter(captures[i], filter)
  }

  /** Every file is the encoding of what was captured into it. */
  ghost predicate Faithful(files: map<string, seq<bv8>>, captured: map<string, seq<Capture>>) {
    && files.Keys == captured.Keys
    && forall name | name in files :: files[name] == CaptureFile(captured[name]) && AllSound(captured[name])
  }

  /** The counters of a file's captures, of which those received passed the filter. */
  predicate Counted(captures: seq<Capture>, packetCount: nat, bytesCount: nat, filter: string) {
    packetCount == |captures| && bytesCount == FrameBytes(captures) && AllPassed(captures, filter)
  }

  lemma Started(filter: string)
    ensures GLOBAL_HEADER == CaptureFile([]) && AllSound([]) && Counted([], 0, 0, filter)
  {
    hide GLOBAL_HEADER;
  }

  /** The files after an attempt to open one. */
  ghost function AfterOpening(captured: map<string, seq<Capture>>, name: string, opening: Opening): map<string, seq<Capture>> {
    match opening
    case Opens => captured[name := []]
    case NoFile => captured
    case NoSocket => captured - {name}
  }

  lemma AfterOpeningIs(captured: map<string, seq<Capture>>, name: string, opening: Opening)
    ensures
      var after := AfterOpening(captured, name, opening);
      && (opening == Opens ==> after == captured[name := []] && name in after && after[name] == [])
      && (opening == NoFile ==> after == captured)
      && (opening == NoSocket ==> after == captured[name := []] - {name})
      && (opening == NoSocket ==> name !in after)
      && forall other | other in after && other != name :: other in captured && after[other] == captured[other]
  {}

  lemma FileWritten(files: map<string, seq<bv8>>, captured: map<string, seq<Capture>>, name: string,
                    data: seq<bv8>, captures: seq<Capture>)
    requires Faithful(files, captured) && data == CaptureFile(captures) && AllSound(captures)
    ensures Faithful(files[name := data], captured[name := captures])
  {
    hide CaptureFile, AllSound;
  }

  lemma FileRemoved(files: map<string, seq<bv8>>, captured: map<string, seq<Capture>>, name: string)
    requires Faithful(files, captured)
    ensures Faithful(files - {name}, captured - {name})
  {
    hide CaptureFile, AllSound;
  }

  lemma FileHolds(files: map<string, seq<bv8>>, captured: map<string, seq<Capture>>, name: string)
    requires Faithful(files, captured)
    ensures name in files <==> name in captured
    ensures name in files ==> files[name] == CaptureFile(captured[name]) && AllSound(captured[name])
  {
    hide CaptureFile, AllSound;
  }

  /** The capture manager and the files it keeps in its directory. */
  class CaptureManager {
    var isCapturing: bool
    var protoFilter: string
    var fileName: string
    var packetCount: nat
    var bytesCount: nat
    var files: map<string, seq<bv8>>
    /** What was captured into each file. */
    ghost var captured: map<string, seq<Capture>>

    /** The files are faithful, and the counters count the last one. */
    ghost predicate Valid()
      reads this
    {
      && Faithful(files, captured)
      && (isCapturing ==> fileName in captured)
      && (fileName in captured ==> Counted(captured[fileName], packetCount, bytesCount, protoFilter))
    }

    constructor ()
      ensures Valid() && !isCapturing && captured == map[]
    {
      isCapturing, protoFilter, fileName, packetCount, bytesCount, files := false, "", "", 0, 0, map[];
      captured := map[];
    }

    /** handleStartPcap: a new file with nothing in it, or none of that name, or a capture under way left alone. */
    method Start(name: string, filter: string, opening: Opening) returns (ok: bool)
      requires Valid()
      modifies this
      ensures Valid() && ok == (!old(isCapturing) && opening == Opens) && isCapturing == (ok || old(isCapturing))
      ensures ok ==> fileName == name && protoFilter == filter
      ensures !ok ==> fileName == old(fileName) && protoFilter == old(protoFilter)
      ensures captured == if old(isCapturing) then old(captured) else AfterOpening(old(captured), name, opening)
    {
      hide Counted, Faithful, AfterOpening;
      if isCapturing {
        return false;
      }
      AfterOpeningIs(captured, name, opening);
      if opening == NoFile {
        return false;
      }
      Create(name);
      if opening == NoSocket {
        Remove(name);
        return false;
      }
      Started(filter);
      isCapturing, protoFilter, fileName, packetCount, bytesCount := true, filter, name, 0, 0;
      return true;
    }

    /** The file with its global header, over one of the same name. */
    method Create(name: string)
      requires Faithful(files, captured)
      modifies this`files, this`captured
      ensures Faithful(files, captured) && captured == old(captured)[name := []]
    {
      hide Faithful, CaptureFile, AllSound, GLOBAL_HEADER;
      var header := WritePcapGlobalHeader();
      Started("");
      FileWritten(files, captured, name, header, []);
      files, captured := files[name := header], captured[name := []];
    }

    method Remove(name: string)
      requires Faithful(files, captured)
      modifies this`files, this`captured
      ensures Faithful(files, captured) && captured == old(captured) - {name}
    {
      hide Faithful;
      FileRemoved(files, captured, name);
      files, captured := files - {name}, captured - {name};
    }

    /** handleStopPcap, and CleanUpPcap. */
    method Stop() returns (ok: bool)
      requires Valid()
      modifies this`isCapturing
      ensures Valid() && ok == old(isCapturing) && !isCapturing
    {
      hide Faithful, Counted;
      ok := isCapturing;
      isCapturing := false;
    }

    /** handleDeletePcap: any file but the one being captured into. */
    method Delete(name: string) returns (ok: bool)
      requires Valid()
      modifies this`files, this`captured
      ensures Valid() && ok == (name in old(captured) && !(isCapturing && fileName == name))
      ensures captured == if ok then old(captured) - {name} else old(captured)
    {
      hide Faithful, Counted;
      FileHolds(files, captured, name);
      if (isCapturing && fileName == name) || name !in files {
        return false;
      }
      Remove(name);
      return true;
    }

    /** WriteSimulatedPacket: one more packet when capturing, nothing otherwise. */
    method WriteSimulatedPacket(p: Packet)
      requires Valid()
      modifies this`files, this`packetCount, this`bytesCount, this`captured
      ensures Valid()
      ensures captured == if isCapturing then Grown(old(captured), Simulated(p)) else old(captured)
      ensures packetCount == old(packetCount) + (if isCapturing then 1 else 0)
      ensures bytesCount == old(bytesCount) + (if isCapturing then |p.Frame()| else 0)
    {
      hide Faithful, Counted, p.Frame;
      if !isCapturing {
        return;
      }
      var ethData := BuildFrame(p);
      Append(Simulated(p), ethData);
    }

    /** One turn of captureLoop: a packet from the socket, whatever its link layer, goes into the file as an
        Ethernet frame when its layer is known and its protocol passes the filter. Panics where the layer guess does. */
    method Receive(packet: seq<bv8>, sec: nat, usec: nat) returns (r: Outcome<bool>)
      requires Valid() && |packet| <= 65535
      modifies this`files, this`packetCount, this`bytesCount, this`captured
      ensures Valid()
      ensures r.Panics? <==> isCapturing && packet != [] && ParsePacket(packet).Panics?
      ensures !r.Hangs?
      ensures r != Done(true) ==> captured == old(captured)
      ensures r == Done(true) <==> isCapturing && packet != [] && Taken(packet)
      ensures r == Done(true) ==>
                var layer := ParsePacket(packet).value;
                captured == Grown(old(captured), Received(sec, usec, packet[layer.start..], layer.etherType))
      ensures packetCount == old(packetCount) + (if r == Done(true) then 1 else 0)
      ensures bytesCount == old(bytesCount)
                            + (if r == Done(true) then 14 + |packet| - ParsePacket(packet).value.start else 0)
    {
      hide Faithful, Counted, ParsePacket, IpProtocol, MatchesProtocol, LetThrough, IpVersion, Wrapped;
      if !isCapturing || packet == [] {
        return Done(false);
      }
      var layer := ParsePacket(packet);
      if layer.Panics? {
        return Panics;
      }
      if layer.value.NotIp? {
        return Done(false);
      }
      var ipPayload := packet[layer.value.start..];
      var proto := IpProtocol(ipPayload, layer.value.etherType);
      FilterLets(protoFilter, proto);
      if !MatchesProtocol(proto, protoFilter) {
        return Done(false);
      }
      var writeData := WrapInEthernet(ipPayload, layer.value.etherType);
      Append(Received(sec, usec, ipPayload, layer.value.etherType), writeData);
      return Done(true);
    }

    /** A packet that captureLoop writes. */
    predicate Taken(packet: seq<bv8>)
      reads this
    {
      var layer := ParsePacket(packet);
      layer.Done? && layer.value.At?
      && LetThrough(protoFilter, IpProtocol(packet[layer.value.start..], layer.value.etherType))
    }

    /** What was captured, with one more into the current file. */
    ghost function Grown(before: map<string, seq<Capture>>, c: Capture): map<string, seq<Capture>>
      reads this`fileName
    {
      if fileName in before then before[fileName := before[fileName] + [c]] else before
    }

    /** A record header and a frame at the end of the current file. */
    method Append(c: Capture, frame: seq<bv8>)
      requires Valid() && isCapturing && frame == c.Frame() && c.Sound() && PassedFilter(c, protoFilter)
      modifies this`files, this`packetCount, this`bytesCount, this`captured
      ensures Valid() && captured == Grown(old(captured), c)
      ensures packetCount == old(packetCount) + 1 && bytesCount == old(bytesCount) + |frame|
    {
      hide Faithful, CaptureFile, c.Record, c.Frame, c.Sec, c.Usec, c.Sound, PassedFilter, FrameBytes, AllSound, AllPassed;
      FileHolds(files, captured, fileName);
      var header := WritePcapPacketHeader(|frame|, c.Sec(), c.Usec());
      RecordIs(c, header);
      Appended(captured[fileName], c, protoFilter);
      var data := files[fileName] + header + frame;
      Joined(files[fileName], header, frame);
      FileWritten(files, captured, fileName, data, captured[fileName] + [c]);
      files := files[fileName := data];
      packetCount, bytesCount := packetCount + 1, bytesCount + |frame|;
      captured := captured[fileName := captured[fileName] + [c]];
    }

    /** After any run of starts, stops, deletions and packets of either kind, reading any file finds everything captured
        into it, whole and in order, exactly when each capture is recoverable; and what is shown of it then is what the
        last filter keeps. */
    lemma Recovers(name: string)
      requires Valid() && name in files && name in captured
      ensures FileEvents(files[name]) == Done(Some(AllExpected(captured[name]))) <==> AllRecoverable(captured[name])
      ensures AllRecoverable(captured[name]) ==> ShownEvents(files[name]) == Done(Some(Filtered(AllExpected(captured[name]))))
    {
      hide FileEvents, ShownEvents, CaptureFile, AllRecoverable, AllSound, AllExpected, Filtered, Counted, Faithful;
      FileHolds(files, captured, name);
      FileRoundTrip(captured[name]);
      FileShown(captured[name]);
    }

    /** What is shown of a received packet is of the protocol the capture was filtered for. */
    lemma OnlyFiltered(i: nat)
      requires Valid() && fileName in captured && i < |captured[fileName]| && captured[fileName][i].Received?
      ensures
        var e := Expected(captured[fileName][i]);
        e.Some? ==>
          && LetThrough(protoFilter, e.value.proto)
          && (protoFilter == "icmp" ==> e.value.proto == 1) && (protoFilter == "tcp" ==> e.value.proto == 6)
          && (protoFilter == "udp" ==> e.value.proto == 17) && (protoFilter == "sctp" ==> e.value.proto == 132)
    {
      hide Faithful, FrameBytes, LetThrough, IpProtocol, IpEvent;
      var c := captured[fileName][i];
      assert PassedFilter(c, protoFilter);
      EventProtocol(c.sec % 0x1_0000_0000, c.usec % 0x1_0000_0000, c.ip, c.etherType, c.Frame());
      OnlyNamed(IpProtocol(c.ip, c.etherType));
    }
  }

  lemma RecordIs(c: Capture, header: seq<bv8>)
    requires header == Le32(c.Sec()) + Le32(c.Usec()) + Le32(|c.Frame()|) + Le32(|c.Frame()|)
    ensures header + c.Frame() == c.Record()
  {
    hide Le32, c.Frame;
  }

  lemma EventProtocol(sec: nat, usec: nat, ip: seq<bv8>, etherType: nat, raw: seq<bv8>)
    ensures
      var e := IpEvent(sec, usec, ip, etherType, raw);
      e.Done? && e.value.Some? ==> e.value.value.proto == IpProtocol(ip, etherType)
  {
    hide NgapPayloads, AfterHeader, TcpPayload, TcpLabel, UdpLabel, GetBe16;
  }

  lemma Appended(captures: seq<Capture>, c: Capture, filter: string)
    ensures CaptureFile(captures + [c]) == CaptureFile(captures) + c.Record()
    ensures FrameBytes(captures + [c]) == FrameBytes(captures) + |c.Frame()|
    ensures AllSound(captures) && c.Sound() ==> AllSound(captures + [c])
    ensures AllPassed(captures, filter) && PassedFilter(c, filter) ==> AllPassed(captures + [c], filter)
  {
    hide c.Record, c.Frame, c.Sound, PassedFilter, GLOBAL_HEADER, RecordsOf;
    RecordsSnoc(captures, c);
    Joined(GLOBAL_HEADER, RecordsOf(captures), c.Record());
    assert (captures + [c])[..|captures|] == captures;
  }

  /** The IP header, the transport header of its protocol, the payload, and Ethernet round them. */
  method BuildFrame(p: Packet) returns (ethData: seq<bv8>)
    ensures ethData == p.Frame()
  {
    hide Be16, Be32, Wrapped, p.IpHeader, p.Transport;
    var ipHeader := BuildIpHeader(p);
    var transportHeader := BuildTransport(p);
    var packetData := ipHeader + transportHeader + p.payload;
    ethData := WrapInEthernet(packetData, 0x0800);
  }

  method BuildIpHeader(p: Packet) returns (r: seq<bv8>)
    ensures r == p.IpHeader()
  {
    hide Be16, p.Src, p.Dst;
    var ipHeader := new bv8[20](_ => 0);
    ipHeader[0] := 0x45;
    Put(ipHeader, 2, Be16(20 + 8 + |p.payload|));
    ipHeader[8] := 64;
    ipHeader[9] := p.proto;
    Put(ipHeader, 12, p.Src());
    Put(ipHeader, 16, p.Dst());
    r := ipHeader[..];
    HeaderIs(p, r);
  }

  lemma HeaderIs(p: Packet, r: seq<bv8>)
    requires |r| == 20 && r[0] == 0x45 && r[1] == 0 && r[8] == 64 && r[9] == p.proto
    requires forall j | 4 <= j < 12 && j != 8 && j != 9 :: r[j] == 0
    requires forall j | 2 <= j < 4 :: r[j] == Be16(20 + 8 + |p.payload|)[j - 2]
    requires forall j | 12 <= j < 16 :: r[j] == p.Src()[j - 12]
    requires forall j | 16 <= j < 20 :: r[j] == p.Dst()[j - 16]
    ensures r == p.IpHeader()
  {
    hide Be16, p.Src, p.Dst;
    assert r[..2] == [0x45, 0] && r[2..4] == Be16(20 + 8 + |p.payload|) && r[12..16] == p.Src() && r[16..] == p.Dst();
    assert r[4..12] == [0, 0, 0, 0, 64, p.proto, 0, 0];
    assert r == r[..2] + r[2..4] + r[4..12] + r[12..16] + r[16..];
  }

  method BuildTransport(p: Packet) returns (r: seq<bv8>)
    ensures r == p.Transport()
  {
    hide p.ChunkHeader, Be16;
    if p.proto == UDP {
      r := BuildUdp(p);
    } else if p.proto == TCP {
      r := BuildTcp(p);
    } else if p.proto == SCTP {
      r := BuildSctp(p);
    } else {
      r := [];
    }
  }

  method BuildUdp(p: Packet) returns (r: seq<bv8>)
    ensures r == Be16(p.srcPort) + Be16(p.dstPort) + Be16(8 + |p.payload|) + [0, 0]
  {
    hide Be16;
    var transportHeader := new bv8[8](_ => 0);
    Put(transportHeader, 0, Be16(p.srcPort));
    Put(transportHeader, 2, Be16(p.dstPort));
    Put(transportHeader, 4, Be16(8 + |p.payload|));
    r := transportHeader[..];
  }

  method BuildTcp(p: Packet) returns (r: seq<bv8>)
    ensures r == Be16(p.srcPort) + Be16(p.dstPort) + [0, 0, 0, 0, 0, 0, 0, 0] + [0x50, 0, 0, 0, 0, 0, 0, 0]
  {
    hide Be16;
    var transportHeader := new bv8[20](_ => 0);
    Put(transportHeader, 0, Be16(p.srcPort));
    Put(transportHeader, 2, Be16(p.dstPort));
    transportHeader[12] := 0x50;
    r := transportHeader[..];
  }

  method BuildSctp(p: Packet) returns (r: seq<bv8>)
    ensures r == Be16(p.srcPort) + Be16(p.dstPort) + [0, 0, 0, 0, 0, 0, 0, 0] + p.ChunkHeader()
  {
    hide Be16, Be32;
    var transportHeader := new bv8[28](_ => 0);
    Put(transportHeader, 0, Be16(p.srcPort));
    Put(transportHeader, 2, Be16(p.dstPort));
    transportHeader[12] := 0;
    transportHeader[13] := 0x07;
    Put(transportHeader, 14, Be16(16 + |p.payload|));
    Put(transportHeader, 24, Be32(60));
    r := transportHeader[..];
    assert r[12..] == p.ChunkHeader();
  }

  // ---------- reading ----------

  /** The loop over an SCTP packet's chunks, up to where it would stay in place for ever. */
  method ScanChunks(transport: seq<bv8>) returns (r: Outcome<seq<seq<bv8>>>)
    requires |transport| >= 12
    ensures r == NgapPayloads(transport[12..])
  {
    hide GetBe16, GetBe32, AlignedLen;
    var chunks := transport[12..];
    var handed: seq<seq<bv8>> := [];
    AfterNothing(NgapPayloads(chunks));
    while |chunks| >= 4
      invariant NgapPayloads(transport[12..]) == After(handed, NgapPayloads(chunks))
      decreases |chunks|
    {
      var chunkLen := GetBe16(chunks, 2);
      if chunkLen < 4 {
        break;
      }
      var now := [];
      if chunks[0] == 0 {
        if |chunks| >= 16 {
          if GetBe32(chunks, 12) == 60 {
            if chunkLen < 16 || chunkLen > |chunks| {
              return Panics;
            }
            now := [chunks[16..chunkLen]];
          }
        }
      }
      var alignedLen := AlignedLen(chunkLen);
      if alignedLen == 0 {
        return Hangs;
      }
      AfterMore(handed, now, if alignedLen > |chunks| then Done([]) else NgapPayloads(chunks[alignedLen..]));
      handed := handed + now;
      if alignedLen > |chunks| {
        chunks := [];
        break;
      }
      chunks := chunks[alignedLen..];
    }
    assert handed + [] == handed;
    return Done(handed);
  }

  /** The payloads handed over before those of the chunks still to come. */
  function After(handed: seq<seq<bv8>>, rest: Outcome<seq<seq<bv8>>>): Outcome<seq<seq<bv8>>> {
    match rest
    case Done(more) => Done(handed + more)
    case Panics => Panics
    case Hangs => Hangs
  }

  lemma AfterNothing(rest: Outcome<seq<seq<bv8>>>)
    ensures After([], rest) == rest
  {
    if rest.Done? { assert [] + rest.value == rest.value; }
  }

  lemma AfterMore(handed: seq<seq<bv8>>, now: seq<seq<bv8>>, rest: Outcome<seq<seq<bv8>>>)
    ensures After(handed, After(now, rest)) == After(handed + now, rest)
  {
    if rest.Done? { assert handed + (now + rest.value) == handed + now + rest.value; }
  }

  /** One captured frame: the layers above Ethernet, and the chunks of an SCTP packet. */
  method ReadFrame(sec: nat, usec: nat, data: seq<bv8>) returns (r: Outcome<Option<Event>>)
    ensures r == FrameEvent(sec, usec, data)
  {
    hide ParsePacket, NgapPayloads, GetBe16, IpVersion, AfterHeader, TransportEvent;
    var layer := ParsePacket(data);
    if !layer.Done? {
      return Panics;
    }
    if layer.value.NotIp? {
      return Done(None);
    }
    var ip := data[layer.value.start..];
    var event: Event;
    var transport: seq<bv8>;
    if layer.value.etherType == 0x0800 && |ip| >= 20 {
      event := Event(sec, usec, Ip, ip[9], ip[12..16], 0, ip[16..20], 0, [], data);
      transport := AfterHeader(ip);
    } else if layer.value.etherType == 0x86dd && |ip| >= 40 {
      event := Event(sec, usec, Ip, ip[6], ip[8..24], 0, ip[24..40], 0, [], data);
      transport := ip[40..];
    } else {
      return Done(None);
    }
    var shown := ReadTransport(event, transport);
    return Shown(shown);
  }

  /** The switch over the IP protocol. */
  method ReadTransport(e: Event, transport: seq<bv8>) returns (r: Outcome<Event>)
    ensures r == TransportEvent(e, transport)
  {
    hide NgapPayloads, GetBe16, TcpPayload, StartsHttp;
    var event := e;
    match e.proto {
    case 1 =>
      event := event.(protocol := Icmp);
    case 6 =>
      event := event.(protocol := Tcp);
      if |transport| >= 4 {
        event := event.(srcPort := GetBe16(transport, 0), dstPort := GetBe16(transport, 2));
        if StartsHttp(TcpPayload(transport)) {
          event := event.(protocol := Http);
        }
        if event.protocol == Tcp && (event.srcPort in SBI_PORTS || event.dstPort in SBI_PORTS) {
          event := event.(protocol := Http);
        }
      }
    case 17 =>
      event := event.(protocol := Udp);
      if |transport| >= 8 {
        event := event.(srcPort := GetBe16(transport, 0), dstPort := GetBe16(transport, 2));
        var udpPayload := transport[8..];
        if event.srcPort == 5004 || event.dstPort == 5004 || event.srcPort == 5005 || event.dstPort == 5005 {
          event := event.(protocol := Rtp);
        } else if |udpPayload| >= 3 && udpPayload[0] == 0x58 && udpPayload[1] == 0x4e {
          event := event.(protocol := Xnap);
        } else if |udpPayload| >= 4 && udpPayload[0] == 0x52 && udpPayload[1] == 0x52 && udpPayload[2] == 0x43 {
          event := event.(protocol := Rrc);
        }
      }
    case 132 =>
      event := event.(protocol := Sctp);
      if |transport| >= 12 {
        event := event.(srcPort := GetBe16(transport, 0), dstPort := GetBe16(transport, 2));
        var ngap := ScanChunks(transport);
        if !ngap.Done? {
          return if ngap.Panics? then Panics else Hangs;
        }
        event := event.(ngap := ngap.value, protocol := if ngap.value == [] then Sctp else Ngap);
      }
    case _ =>
    }
    return Done(event);
  }

  function Before(events: seq<Event>, rest: Outcome<seq<Event>>): Outcome<seq<Event>> {
    match rest
    case Done(more) => Done(events + more)
    case Panics => Panics
    case Hangs => Hangs
  }

  lemma BeforeOne(events: seq<Event>, now: seq<Event>, rest: Outcome<seq<Event>>)
    ensures Before(events, Before(now, rest)) == Before(events + now, rest)
    ensures Before([], rest) == rest
  {
    if rest.Done? {
      assert events + (now + rest.value) == events + now + rest.value;
      assert [] + rest.value == rest.value;
    }
  }

  /** The record loop of parsePcapEvents. */
  method ParseRecords(file: seq<bv8>) returns (r: Outcome<Option<seq<Event>>>)
    ensures r == FileEvents(file)
  {
    hide GetLe32, GetBe32, FrameEvent, Listed;
    if |file| < 24 {
      return Done(None);
    }
    var magic := GetLe32(file, 0);
    var isLittleEndian := true;
    if magic == 0xd4c3b2a1 || magic == 0x4d3cb2a1 {
      isLittleEndian := false;
    } else if magic != 0xa1b2c3d4 && magic != 0xa1b23c4d {
      return Done(None);
    }
    var reader, events := file[24..], [];
    BeforeOne([], [], Events(reader, isLittleEndian));
    while |reader| >= 16
      invariant Events(file[24..], isLittleEndian) == Before(events, Events(reader, isLittleEndian))
      decreases |reader|
    {
      var sec, usec := Get32(reader, 0, isLittleEndian), Get32(reader, 4, isLittleEndian);
      var inclLen := Get32(reader, 8, isLittleEndian);
      if |reader| - 16 < inclLen {
        break;
      }
      var first := ReadFrame(sec, usec, reader[16..16 + inclLen]);
      if !first.Done? {
        return if first.Panics? then Panics else Hangs;
      }
      var now := Listed(first.value);
      BeforeOne(events, now, Events(reader[16 + inclLen..], isLittleEndian));
      events := events + now;
      reader := reader[16 + inclLen..];
    }
    assert events + [] == events;
    return Done(Some(events));
  }

  /** parsePcapEvents: every record's event, and of those the protocols shown. */
  method ParsePcapEvents(file: seq<bv8>) returns (r: Outcome<Option<seq<Event>>>)
    ensures r == ShownEvents(file)
  {
    hide FileEvents, Kept, Filtered;
    r := ParseRecords(file);
    if !r.Done? || r.value.None? {
      return;
    }
    var events, filtered := r.value.value, [];
    NothingFiltered();
    for i := 0 to |events|
      invariant filtered == Filtered(events[..i])
    {
      FilteredSnoc(events[..i], events[i]);
      assert events[..i + 1] == events[..i] + [events[i]];
      if Kept(events[i]) {
        filtered := filtered + [events[i]];
      }
    }
    assert events[..|events|] == events;
    return Done(Some(filtered));
  }

  lemma NothingFiltered()
    ensures Filtered([]) == []
  {}

  lemma FilteredStep(e: Event, events: seq<Event>)
    ensures Filtered([e] + events) == (if Kept(e) then [e] else []) + Filtered(events)
  {
    hide Kept;
    assert ([e] + events)[1..] == events;
  }

  lemma {:induction false} FilteredSnoc(events: seq<Event>, e: Event)
    ensures Filtered(events + [e]) == Filtered(events) + if Kept(e) then [e] else []
  {
    hide Kept, Filtered;
    NothingFiltered();
    if events == [] {
      FilteredStep(e, []);
      assert events + [e] == [e] + [];
    } else {
      FilteredSnoc(events[1..], e);
      assert events + [e] == [events[0]] + (events[1..] + [e]);
      FilteredStep(events[0], events[1..] + [e]);
      FilteredStep(events[0], events[1..]);
      assert events == [events[0]] + events[1..];
    }
  }
}
