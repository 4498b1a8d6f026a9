/** Which files the reader gets through, and what one packet does to the file it is captured into. */
module PcapReadable {
  import opened Bits
  import opened Common
  import opened PcapFormat
  import opened PcapChunks
  import opened PcapDatagrams
  import opened PcapRoundTrip

  // ---------- any file ----------

  /** The layer guesses look at a version nibble past the end of a frame of 16 bytes, or of 14. */
  predicate LayerReadable(data: seq<bv8>) {
    !(|data| == 16 && GetBe16(data, 14) in {0x0800, 0x86dd}) && !(|data| == 14 && GetBe16(data, 12) in {0x0800, 0x86dd})
  }

  lemma LayerDecides(data: seq<bv8>)
    ensures ParsePacket(data).Panics? <==> !LayerReadable(data)
  {
    hide GetBe16, GetBe32, GetLe32, Version;
  }

  predicate FrameReadable(data: seq<bv8>) {
    && LayerReadable(data)
    && var layer := ParsePacket(data);
       layer.Done? && layer.value.At? ==> Scannable(data[layer.value.start..], layer.value.etherType)
  }

  lemma FrameDecides(sec: nat, usec: nat, data: seq<bv8>)
    ensures FrameEvent(sec, usec, data).Done? <==> FrameReadable(data)
  {
    LayerDecides(data);
    hide ParsePacket, IpEvent, Scannable, LayerReadable, IpVersion;
    var layer := ParsePacket(data);
    if layer.Done? && layer.value.At? {
      PacketOutcome(sec, usec, data[layer.value.start..], layer.value.etherType, data);
    }
  }

  /** Every whole record holds a frame the reader gets through. */
  predicate RecordsReadable(data: seq<bv8>, littleEndian: bool) {
    |data| < 16
    || var n := Get32(data, 8, littleEndian);
       |data| - 16 < n || (FrameReadable(data[16..16 + n]) && RecordsReadable(data[16 + n..], littleEndian))
  }

  lemma {:induction false} RecordsDecide(data: seq<bv8>, littleEndian: bool)
    ensures Events(data, littleEndian).Done? <==> RecordsReadable(data, littleEndian)
    decreases |data|
  {
    hide FrameEvent, GetLe32, GetBe32, FrameReadable, Listed;
    if |data| >= 16 {
      var n := Get32(data, 8, littleEndian);
      if |data| - 16 >= n {
        FrameDecides(Get32(data, 0, littleEndian), Get32(data, 4, littleEndian), data[16..16 + n]);
        RecordsDecide(data[16 + n..], littleEndian);
      }
    }
  }

  /** Without a global header the reader knows, or with records it gets through. */
  predicate FileReadable(file: seq<bv8>) {
    |file| < 24
    || var magic := GetLe32(file, 0);
       if magic in {0xd4c3b2a1, 0x4d3cb2a1} then RecordsReadable(file[24..], false)
       else magic in {0xa1b2c3d4, 0xa1b23c4d} ==> RecordsReadable(file[24..], true)
  }

  /** Reading a file, whoever wrote it, ends without a slice out of range exactly when its headers are these. */
  lemma FileDecides(file: seq<bv8>)
    ensures FileEvents(file).Done? <==> FileReadable(file)
    ensures ShownEvents(file).Done? <==> FileReadable(file)
  {
    hide GetLe32, Events, RecordsReadable, Filtered;
    if |file| >= 24 {
      RecordsDecide(file[24..], true);
      RecordsDecide(file[24..], false);
    }
  }

  // ---------- captures ----------

  predicate AllFit(captures: seq<Capture>) {
    forall i | 0 <= i < |captures| :: |captures[i].Frame()| < 0x1_0000_0000
  }

  /** One packet that the reader cannot get past takes the whole file with it, wherever in the file it is. */
  lemma {:induction false} PacketPoisons(captures: seq<Capture>, i: nat)
    requires i < |captures| && AllSound(captures) && AllFit(captures)
    requires captures[i].Received? && !Scannable(captures[i].ip, captures[i].etherType)
    ensures !FileEvents(CaptureFile(captures)).Done? && !ShownEvents(CaptureFile(captures)).Done?
  {
    RecordPoisons(captures, i);
    hide Events, GLOBAL_HEADER, RecordsOf, FileEvents, Filtered, Scannable, AllSound, AllFit;
    FileRecords(RecordsOf(captures));
  }

  lemma {:induction false} RecordPoisons(captures: seq<Capture>, i: nat)
    requires i < |captures| && AllSound(captures) && AllFit(captures)
    requires captures[i].Received? && !Scannable(captures[i].ip, captures[i].etherType)
    ensures !Events(RecordsOf(captures), true).Done?
  {
    var c := captures[0];
    assert c.Sound() && |c.Frame()| < 0x1_0000_0000 && AllSound(captures[1..]) && AllFit(captures[1..]);
    if i > 0 {
      assert captures[1..][i - 1] == captures[i];
      RecordPoisons(captures[1..], i - 1);
    }
    hide Events, FrameEvent, Scannable, AllSound, AllFit, c.Frame, c.Record, c.Sound, Listed;
    if i == 0 { ReceivedDecides(c); }
    RecordBack(c, RecordsOf(captures[1..]));
  }

  lemma ReceivedDecides(c: Capture)
    requires c.Received? && c.Sound()
    ensures FrameEvent(c.Sec() % 0x1_0000_0000, c.Usec() % 0x1_0000_0000, c.Frame())
         == IpEvent(c.sec % 0x1_0000_0000, c.usec % 0x1_0000_0000, c.ip, c.etherType, c.Frame())
    ensures IpEvent(c.sec % 0x1_0000_0000, c.usec % 0x1_0000_0000, c.ip, c.etherType, c.Frame()).Done?
            <==> Scannable(c.ip, c.etherType)
  {
    hide ParsePacket, IpEvent, Wrapped, Scannable, IpVersion;
    FrameIsEthernet(c.ip, c.etherType);
    PacketOutcome(c.sec % 0x1_0000_0000, c.usec % 0x1_0000_0000, c.ip, c.etherType, c.Frame());
  }

  /** A received datagram is recoverable, and shown as what its fields say. */
  lemma ReceivedBack(g: Datagram, sec: nat, usec: nat)
    requires g.WellFormed() && |g.Bytes()| <= 65535
    ensures
      var c := Received(sec, usec, g.Bytes(), g.EtherType());
      && c.Sound() && Recoverable(c)
      && Expected(c) == Some(g.Expected(sec % 0x1_0000_0000, usec % 0x1_0000_0000, c.Frame()))
  {
    var c := Received(sec, usec, g.Bytes(), g.EtherType());
    hide g.Bytes, g.EtherType, g.Expected, g.WellFormed, IpEvent, Scannable, IpVersion, Wrapped;
    DatagramBack(g, sec % 0x1_0000_0000, usec % 0x1_0000_0000, c.Frame());
    PacketOutcome(sec % 0x1_0000_0000, usec % 0x1_0000_0000, c.ip, c.etherType, c.Frame());
  }

  // ---------- two such packets ----------

  /** A version 4 header without options for an SCTP packet, and the SCTP header. */
  const SCTP_HEADERS: seq<bv8> :=
    [0x45, 0, 0, 36, 0, 0, 0, 0, 64, 132, 0, 0, 127, 0, 0, 1, 127, 0, 0, 1] + [0, 0, 0, 0, 0, 0, 0, 0, 0, 0, 0, 0]

  lemma HeadersRead(sec: nat, usec: nat, chunks: seq<bv8>, raw: seq<bv8>)
    requires NgapPayloads(chunks).Panics? || NgapPayloads(chunks).Hangs?
    ensures IpVersion(0x0800, (SCTP_HEADERS + chunks)[0])
    ensures IpEvent(sec, usec, SCTP_HEADERS + chunks, 0x0800, raw) == if NgapPayloads(chunks).Panics? then Panics else Hangs
  {
    hide NgapPayloads, GetBe16;
    var ip := SCTP_HEADERS + chunks;
    FiveWords();
    assert AfterHeader(ip) == ip[20..] && ip[20..][12..] == chunks;
  }

  /** A file with a packet whose one chunk has a length of all ones is never read to the end. */
  lemma LongestChunkCaptured(sec: nat, usec: nat)
    ensures FileEvents(CaptureFile([Received(sec, usec, SCTP_HEADERS + [1, 0, 0xff, 0xff], 0x0800)])) == Hangs
  {
    LongestChunk();
    OnlyPacket(sec, usec, [1, 0, 0xff, 0xff]);
  }

  /** Reading one with a DATA chunk too short for its payload protocol slices out of range. */
  lemma ShortDataCaptured(sec: nat, usec: nat)
    ensures
      var chunks := [0, 3, 0, 8, 0, 0, 0, 0, 0, 0, 0, 0, 0, 0, 0, 60];
      FileEvents(CaptureFile([Received(sec, usec, SCTP_HEADERS + chunks, 0x0800)])) == Panics
  {
    ShortDataChunk();
    OnlyPacket(sec, usec, [0, 3, 0, 8, 0, 0, 0, 0, 0, 0, 0, 0, 0, 0, 0, 60]);
  }

  lemma OnlyPacket(sec: nat, usec: nat, chunks: seq<bv8>)
    requires (NgapPayloads(chunks).Panics? || NgapPayloads(chunks).Hangs?) && |chunks| <= 60000
    ensures FileEvents(CaptureFile([Received(sec, usec, SCTP_HEADERS + chunks, 0x0800)]))
         == if NgapPayloads(chunks).Panics? then Panics else Hangs
  {
    var c := Received(sec, usec, SCTP_HEADERS + chunks, 0x0800);
    hide NgapPayloads, IpEvent, IpVersion, FrameEvent, FileEvents, CaptureFile, Scannable, c.Frame, SCTP_HEADERS;
    HeadersRead(sec % 0x1_0000_0000, usec % 0x1_0000_0000, chunks, c.Frame());
    SctpHeadersLength();
    FrameFits(c);
    ReceivedDecides(c);
    OneRecord(c);
  }

  /** A file with one record ends as the reading of its frame does. */
  lemma OneRecord(c: Capture)
    requires |c.Frame()| < 0x1_0000_0000
    ensures
      var first := FrameEvent(c.Sec() % 0x1_0000_0000, c.Usec() % 0x1_0000_0000, c.Frame());
      && (first.Panics? ==> FileEvents(CaptureFile([c])) == Panics)
      && (first.Hangs? ==> FileEvents(CaptureFile([c])) == Hangs)
  {
    hide FrameEvent, FileEvents, Events, c.Frame, c.Record, c.Sec, c.Usec, GLOBAL_HEADER, Listed;
    RecordBack(c, []);
    assert [c][1..] == [] && RecordsOf([c]) == c.Record() + RecordsOf([]);
    FileRecords(RecordsOf([c]));
  }

  lemma SctpHeadersLength()
    ensures |SCTP_HEADERS| == 32
  {}

  // ---------- past the last filter ----------

  /** When all frames fit their records, a file is shown as expected exactly when all its captures are recoverable. */
  lemma ShownExactly(captures: seq<Capture>)
    requires AllSound(captures) && AllFit(captures)
    ensures ShownEvents(CaptureFile(captures)) == Done(Some(Filtered(AllExpected(captures)))) <==> AllRecoverable(captures)
  {
    hide FileEvents, AllSound, AllExpected, CaptureFile, Filtered, Kept, PacketExpected, ShownEvents;
    FileShown(captures);
    if ShownEvents(CaptureFile(captures)) == Done(Some(Filtered(AllExpected(captures)))) {
      forall i | 0 <= i < |captures| ensures Recoverable(captures[i]) {
        if captures[i].Received? {
          if !Scannable(captures[i].ip, captures[i].etherType) { PacketPoisons(captures, i); }
        } else {
          FitsOrKept(captures[i].packet);
        }
      }
    }
  }

  lemma FitsOrKept(p: Packet)
    requires |p.Frame()| < 0x1_0000_0000
    ensures PacketRecoverable(p) || Kept(PacketExpected(p))
  {
    hide p.Frame, p.Src, p.Dst;
    if p.proto == SCTP { SctpPacketKept(p); }
  }
}
