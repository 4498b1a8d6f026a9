/** The capture format in bytes: numbers in either order, headers and frames byte for byte, and files written by others. */
module PcapLayout {
  import opened Bits
  import opened Common
  import opened PcapFormat
  import opened PcapRoundTrip
  import opened PcapDatagrams

  // ---------- numbers ----------

  /** High byte first. */
  lemma BigEndianBytes(v: nat)
    ensures Be16(v)[0] as nat == v / 256 % 256 && Be16(v)[1] as nat == v % 256
    ensures Be32(v)[0] as nat == v / 0x100_0000 % 256 && Be32(v)[1] as nat == v / 0x1_0000 % 256
    ensures Be32(v)[2] as nat == v / 256 % 256 && Be32(v)[3] as nat == v % 256
  {
    hide Octet;
    OctetBack(v / 256);
    OctetBack(v);
    OctetBack(v / 65536 / 256);
    OctetBack(v / 65536);
  }

  /** Low byte first. */
  lemma LittleEndianBytes(v: nat)
    ensures Le16(v)[0] as nat == v % 256 && Le16(v)[1] as nat == v / 256 % 256
    ensures Le32(v)[0] as nat == v % 256 && Le32(v)[1] as nat == v / 256 % 256
    ensures Le32(v)[2] as nat == v / 0x1_0000 % 256 && Le32(v)[3] as nat == v / 0x100_0000 % 256
  {
    hide Octet;
    OctetBack(v / 256);
    OctetBack(v);
    OctetBack(v / 65536 / 256);
    OctetBack(v / 65536);
  }

  lemma NumbersRead(s: seq<bv8>, i: nat)
    requires i + 4 <= |s|
    ensures
      var a, b, c, d := s[i] as nat, s[i + 1] as nat, s[i + 2] as nat, s[i + 3] as nat;
      && GetBe16(s, i) == 256 * a + b && GetLe16(s, i) == a + 256 * b
      && GetBe32(s, i) == 0x100_0000 * a + 0x1_0000 * b + 256 * c + d
      && GetLe32(s, i) == a + 256 * b + 0x1_0000 * c + 0x100_0000 * d
  {}

  /** Bytes are their numbers. */
  lemma Be16Is(v: nat, a: bv8, b: bv8)
    requires a as nat == v / 256 % 256 && b as nat == v % 256
    ensures Be16(v) == [a, b]
  {
    BigEndianBytes(v);
    hide Be16;
    SameByte(Be16(v)[0], a);
    SameByte(Be16(v)[1], b);
  }

  lemma Le16Is(v: nat, a: bv8, b: bv8)
    requires a as nat == v % 256 && b as nat == v / 256 % 256
    ensures Le16(v) == [a, b]
  {
    LittleEndianBytes(v);
    hide Le16, Le32;
    SameByte(Le16(v)[0], a);
    SameByte(Le16(v)[1], b);
  }

  lemma Le32Is(v: nat, a: bv8, b: bv8, c: bv8, d: bv8)
    requires a as nat == v % 256 && b as nat == v / 256 % 256
    requires c as nat == v / 0x1_0000 % 256 && d as nat == v / 0x100_0000 % 256
    ensures Le32(v) == [a, b, c, d]
  {
    LittleEndianBytes(v);
    hide Le32;
    SameByte(Le32(v)[0], a);
    SameByte(Le32(v)[1], b);
    SameByte(Le32(v)[2], c);
    SameByte(Le32(v)[3], d);
  }

  lemma SameByte(x: bv8, y: bv8)
    requires x as nat == y as nat
    ensures x == y
  {
    NumberOfByte(x);
    NumberOfByte(y);
  }

  // ---------- what the writer lays down ----------

  lemma GlobalHeaderBytes()
    ensures GLOBAL_HEADER
         == [0xd4, 0xc3, 0xb2, 0xa1, 2, 0, 4, 0, 0, 0, 0, 0, 0, 0, 0, 0, 0xff, 0xff, 0, 0, 1, 0, 0, 0]
  {
    hide Le16, Le32;
    MagicBytes();
    Le32Is(0, 0, 0, 0, 0);
    Le32Is(65535, 0xff, 0xff, 0, 0);
    Le32Is(1, 1, 0, 0, 0);
    Versions();
  }

  lemma MagicBytes()
    ensures Le32(0xa1b2c3d4) == [0xd4, 0xc3, 0xb2, 0xa1]
  {
    hide Le32;
    Le32Is(0xa1b2c3d4, 0xd4, 0xc3, 0xb2, 0xa1);
  }

  lemma Versions()
    ensures Le16(2) == [2, 0] && Le16(4) == [4, 0]
  {
    Le16Is(2, 2, 0);
    Le16Is(4, 4, 0);
  }

  /** The frame of a UDP packet from 10.0.0.1 to 10.0.0.2, of ports 9999, with four bytes of payload. */
  const UDP_FRAME: seq<bv8> :=
    [0, 0, 0, 0, 0, 2, 0, 0, 0, 0, 0, 1, 8, 0]
    + [0x45, 0, 0, 32, 0, 0, 0, 0, 64, 17, 0, 0, 10, 0, 0, 1, 10, 0, 0, 2]
    + [0x27, 0x0f, 0x27, 0x0f, 0, 12, 0, 0] + [0x52, 0x52, 0x43, 1]

  /** A file with that packet: header, record and frame. */
  lemma UdpFileBytes()
    ensures
      var p := Packet(Some([10, 0, 0, 1]), Some([10, 0, 0, 2]), 9999, 9999, 17, [0x52, 0x52, 0x43, 1], 0x01020304, 5);
      CaptureFile([Simulated(p)])
      == [0xd4, 0xc3, 0xb2, 0xa1, 2, 0, 4, 0, 0, 0, 0, 0, 0, 0, 0, 0, 0xff, 0xff, 0, 0, 1, 0, 0, 0]
         + ([4, 3, 2, 1, 5, 0, 0, 0, 46, 0, 0, 0, 46, 0, 0, 0] + UDP_FRAME)
  {
    hide GLOBAL_HEADER, UDP_FRAME;
    var p := Packet(Some([10, 0, 0, 1]), Some([10, 0, 0, 2]), 9999, 9999, 17, [0x52, 0x52, 0x43, 1], 0x01020304, 5);
    GlobalHeaderBytes();
    UdpFrame(p);
    RecordHeader(46);
    hide Be16, Le32, p.Frame;
    assert RecordsOf([Simulated(p)]) == Simulated(p).Record() + [];
    assert Simulated(p).Record() == Le32(0x01020304) + Le32(5) + Le32(46) + Le32(46) + UDP_FRAME;
  }

  lemma RecordHeader(n: nat)
    requires n == 46
    ensures Le32(0x01020304) + Le32(5) + Le32(n) + Le32(n) == [4, 3, 2, 1, 5, 0, 0, 0, 46, 0, 0, 0, 46, 0, 0, 0]
  {
    Le32Is(0x01020304, 4, 3, 2, 1);
    Le32Is(5, 5, 0, 0, 0);
    Le32Is(46, 46, 0, 0, 0);
    hide Le32;
  }

  lemma UdpFrame(p: Packet)
    requires p.src == Some([10, 0, 0, 1]) && p.dst == Some([10, 0, 0, 2]) && p.srcPort == p.dstPort == 9999 && p.proto == 17
    requires p.payload == [0x52, 0x52, 0x43, 1]
    ensures p.Frame() == UDP_FRAME && |p.Frame()| == 46
  {
    Be16Is(0x0800, 8, 0);
    UdpHeaders(p);
    hide Be16, p.IpHeader, p.Transport;
  }

  lemma UdpHeaders(p: Packet)
    requires p.src == Some([10, 0, 0, 1]) && p.dst == Some([10, 0, 0, 2]) && p.srcPort == p.dstPort == 9999 && p.proto == 17
    requires |p.payload| == 4
    ensures p.IpHeader() == [0x45, 0, 0, 32, 0, 0, 0, 0, 64, 17, 0, 0, 10, 0, 0, 1, 10, 0, 0, 2]
    ensures p.Transport() == [0x27, 0x0f, 0x27, 0x0f, 0, 12, 0, 0]
  {
    hide Be16;
    Be16Is(9999, 0x27, 0x0f);
    Be16Is(12, 0, 12);
    Be16Is(32, 0, 32);
  }

  /** Of a TCP packet between ports 1 and 2, with addresses that are none. */
  lemma TcpHeaders(p: Packet)
    requires p.src == p.dst == None && p.srcPort == 1 && p.dstPort == 2 && p.proto == 6 && |p.payload| == 3
    ensures p.IpHeader() == [0x45, 0, 0, 31, 0, 0, 0, 0, 64, 6, 0, 0, 127, 0, 0, 1, 127, 0, 0, 1]
    ensures p.Transport() == [0, 1, 0, 2, 0, 0, 0, 0, 0, 0, 0, 0, 0x50, 0, 0, 0, 0, 0, 0, 0]
  {
    hide Be16;
    Be16Is(1, 0, 1);
    Be16Is(2, 0, 2);
    Be16Is(31, 0, 31);
  }

  /** Of an SCTP packet: a DATA chunk of the payload and sixteen bytes, with payload protocol 60. */
  lemma SctpHeaders(payload: seq<bv8>)
    requires |payload| == 3
    ensures
      Packet(None, None, 1, 2, 132, payload, 0, 0).Transport()
      == [0, 1, 0, 2, 0, 0, 0, 0, 0, 0, 0, 0] + [0, 7, 0, 19, 0, 0, 0, 0, 0, 0, 0, 0, 0, 0, 0, 60]
  {
    var p := Packet(None, None, 1, 2, 132, payload, 0, 0);
    hide Be16, Be32, p.ChunkHeader;
    Be16Is(1, 0, 1);
    Be16Is(2, 0, 2);
    ChunkHeaderBytes(p);
  }

  lemma ChunkHeaderBytes(p: Packet)
    requires |p.payload| == 3
    ensures p.ChunkHeader() == [0, 7, 0, 19, 0, 0, 0, 0, 0, 0, 0, 0, 0, 0, 0, 60]
  {
    hide Be16;
    Be16Is(19, 0, 19);
    Be16Is(0, 0, 0);
    Be16Is(60, 0, 60);
    assert Be32(60) == Be16(0) + Be16(60);
    hide Be32;
  }

  // ---------- what arrives from a network ----------

  /** A datagram without options, by its sizes and in the order of its fields. */
  lemma DatagramBytes(g: Datagram)
    requires g.V4? ==> |g.service| == 8 && |g.sum| == 2 && |g.src| == |g.dst| == 4 && g.options == []
    requires g.V6? ==> |g.flow| == 5 && |g.src| == |g.dst| == 16
    requires g.segment.UdpSegment? && |g.segment.lengthAndSum| == 4
    ensures g.WellFormed()
    ensures g.V4? ==> g.Bytes() == [0x45] + g.service + [17] + g.sum + g.src + g.dst + g.segment.Bytes()
    ensures g.V6? ==> g.Bytes() == [0x60] + g.flow + [17, g.hopLimit] + g.src + g.dst + g.segment.Bytes()
  {
    hide Be16;
    if g.V4? {
      assert g.FirstByte() == 0x45;
      var head := [0x45] + g.service + [17] + g.sum + g.src + g.dst;
      assert head + [] == head;
    }
  }

  lemma SegmentBytes(payload: seq<bv8>)
    ensures UdpSegment(1, 2, [0, 12, 0, 0], payload).Bytes() == [0, 1, 0, 2, 0, 12, 0, 0] + payload
  {
    hide Be16;
    Be16Is(1, 0, 1);
    Be16Is(2, 0, 2);
  }

  // ---------- files of either byte order ----------

  /** Four bytes are the number they denote. */
  lemma Word(s: seq<bv8>, t: seq<bv8>)
    requires |s| >= 4 && |t| == 4
    ensures s[..4] == t <==> GetLe32(s, 0) == GetLe32(t, 0)
  {
    hide SumOf;
    WordSum(s);
    WordSum(t);
    hide GetLe32;
    assert s[..4] == t <==> s[0] == t[0] && s[1] == t[1] && s[2] == t[2] && s[3] == t[3];
    if GetLe32(s, 0) == GetLe32(t, 0) {
      SameWord(s[0], s[1], s[2], s[3], t[0], t[1], t[2], t[3]);
    }
  }

  function SumOf(a: bv8, b: bv8, c: bv8, d: bv8): nat {
    a as nat + 256 * b as nat + 0x1_0000 * c as nat + 0x100_0000 * d as nat
  }

  lemma WordSum(s: seq<bv8>)
    requires |s| >= 4
    ensures GetLe32(s, 0) == SumOf(s[0], s[1], s[2], s[3])
  {
    NumbersRead(s, 0);
  }

  lemma SameWord(a: bv8, b: bv8, c: bv8, d: bv8, e: bv8, f: bv8, g: bv8, h: bv8)
    requires SumOf(a, b, c, d) == SumOf(e, f, g, h)
    ensures a == e && b == f && c == g && d == h
  {
    OctetBounds(a, b, c, d);
    OctetBounds(e, f, g, h);
    SameDigits(a as nat, b as nat, c as nat, d as nat, e as nat, f as nat, g as nat, h as nat);
    hide SumOf;
    SameByte(a, e);
    SameByte(b, f);
    SameByte(c, g);
    SameByte(d, h);
  }

  lemma OctetBounds(a: bv8, b: bv8, c: bv8, d: bv8)
    ensures a as nat < 256 && b as nat < 256 && c as nat < 256 && d as nat < 256
  {}

  lemma SameDigits(x: nat, y: nat, z: nat, u: nat, x': nat, y': nat, z': nat, u': nat)
    requires x < 256 && y < 256 && z < 256 && u < 256 && x' < 256 && y' < 256 && z' < 256 && u' < 256
    requires x + 256 * y + 0x1_0000 * z + 0x100_0000 * u == x' + 256 * y' + 0x1_0000 * z' + 0x100_0000 * u'
    ensures x == x' && y == y' && z == z' && u == u'
  {}

  lemma Magic(s: seq<bv8>)
    requires |s| >= 4
    ensures s[..4] == [0xd4, 0xc3, 0xb2, 0xa1] <==> GetLe32(s, 0) == 0xa1b2c3d4
    ensures s[..4] == [0x4d, 0x3c, 0xb2, 0xa1] <==> GetLe32(s, 0) == 0xa1b23c4d
    ensures s[..4] == [0xa1, 0xb2, 0xc3, 0xd4] <==> GetLe32(s, 0) == 0xd4c3b2a1
    ensures s[..4] == [0xa1, 0xb2, 0x3c, 0x4d] <==> GetLe32(s, 0) == 0x4d3cb2a1
  {
    hide GetLe32;
    MagicIs(s, 0xa1b2c3d4, 0xd4, 0xc3, 0xb2, 0xa1);
    MagicIs(s, 0xa1b23c4d, 0x4d, 0x3c, 0xb2, 0xa1);
    MagicIs(s, 0xd4c3b2a1, 0xa1, 0xb2, 0xc3, 0xd4);
    MagicIs(s, 0x4d3cb2a1, 0xa1, 0xb2, 0x3c, 0x4d);
  }

  lemma MagicIs(s: seq<bv8>, v: nat, a: bv8, b: bv8, c: bv8, d: bv8)
    requires |s| >= 4 && v < 0x1_0000_0000
    requires a as nat == v % 256 && b as nat == v / 256 % 256
    requires c as nat == v / 0x1_0000 % 256 && d as nat == v / 0x100_0000 % 256
    ensures s[..4] == [a, b, c, d] <==> GetLe32(s, 0) == v
  {
    hide GetLe32, Le32;
    var t := [a, b, c, d];
    Le32Is(v, a, b, c, d);
    assert t[0..4] == t;
    Le32Back(t, 0, v);
    Word(s, t);
  }

  /** The first four bytes say in which order the numbers of the records are, whether their fractions are microseconds
      or nanoseconds; no other file is read. */
  lemma FirstFourBytes(file: seq<bv8>)
    requires |file| >= 24
    ensures FileEvents(file)
         == if file[..4] == [0xd4, 0xc3, 0xb2, 0xa1] || file[..4] == [0x4d, 0x3c, 0xb2, 0xa1] then Opened(Events(file[24..], true))
            else if file[..4] == [0xa1, 0xb2, 0xc3, 0xd4] || file[..4] == [0xa1, 0xb2, 0x3c, 0x4d] then Opened(Events(file[24..], false))
            else Done(None)
  {
    hide GetLe32, Events, Opened;
    Magic(file);
  }

  /** A record with its numbers high byte first. */
  function TurnedRecord(c: Capture): seq<bv8> {
    Be32(c.Sec()) + Be32(c.Usec()) + Be32(|c.Frame()|) + Be32(|c.Frame()|) + c.Frame()
  }

  function TurnedRecords(captures: seq<Capture>): seq<bv8> {
    if captures == [] then [] else TurnedRecord(captures[0]) + TurnedRecords(captures[1..])
  }

  lemma TurnedFields(c: Capture, rest: seq<bv8>)
    requires |c.Frame()| < 0x1_0000_0000
    ensures
      var data := TurnedRecord(c) + rest;
      && |data| >= 16 + |c.Frame()|
      && GetBe32(data, 0) == c.Sec() % 0x1_0000_0000 && GetBe32(data, 4) == c.Usec() % 0x1_0000_0000
      && GetBe32(data, 8) == |c.Frame()| && data[16..16 + |c.Frame()|] == c.Frame() && data[16 + |c.Frame()|..] == rest
  {
    hide Be32, GetBe32, c.Frame, c.Sec, c.Usec;
    var frame, sec, usec := c.Frame(), c.Sec(), c.Usec();
    var data := TurnedRecord(c) + rest;
    assert data == Be32(sec) + Be32(usec) + Be32(|frame|) + Be32(|frame|) + frame + rest;
    assert data[0..4] == Be32(sec) && data[4..8] == Be32(usec) && data[8..12] == Be32(|frame|);
    Be32Back(data, 0, sec);
    Be32Back(data, 4, usec);
    Be32Back(data, 8, |frame|);
  }

  /** The same captures in a file of the other byte order are read as the same events. */
  lemma {:induction false} TurnedRead(captures: seq<Capture>)
    requires forall i | 0 <= i < |captures| :: |captures[i].Frame()| < 0x1_0000_0000
    ensures Events(TurnedRecords(captures), false) == Events(RecordsOf(captures), true)
  {
    if captures != [] {
      var c, rest := captures[0], captures[1..];
      TurnedRead(rest);
      assert |c.Frame()| < 0x1_0000_0000;
      hide GetLe32, GetBe32, FrameEvent, c.Frame, c.Record, c.Sec, c.Usec, TurnedRecord, Listed;
      RecordBack(c, RecordsOf(rest));
      TurnedFields(c, TurnedRecords(rest));
    }
  }
}
