/** The functions of 3GPP TS 35.206, section 4.1, and what the two sides of an authentication agree on. */
module MilenageFunctions {
  import opened Gf256
  import opened AesCipher

  /** E_K: one block under a 128-bit key. */
  function E(k: seq<bv8>, x: seq<bv8>): (r: seq<bv8>)
    requires |k| == 16 && |x| == 16
    ensures |r| == 16
  {
    Cipher(x, Expand(k, 4, 44), 10)
  }

  function Xor(a: seq<bv8>, b: seq<bv8>): (r: seq<bv8>)
    requires |a| == |b|
    ensures |r| == |a|
  {
    seq(|a|, i requires 0 <= i < |a| => Add(a[i], b[i]))
  }

  /** A block rotated left by `n` bytes. */
  function Rot(s: seq<bv8>, n: nat): (r: seq<bv8>)
    requires |s| == 16
    ensures |r| == 16
  {
    seq(16, i requires 0 <= i < 16 => s[(i + n) % 16])
  }

  /** The constant `c` added to the low end of a block. */
  function Low(s: seq<bv8>, c: bv8): (r: seq<bv8>)
    requires |s| == 16
    ensures |r| == 16
  {
    s[15 := Add(s[15], c)]
  }

  /** What both sides share in one authentication. */
  datatype Challenge = Challenge(k: seq<bv8>, opc: seq<bv8>, rand: seq<bv8>) {
    predicate Valid() { |k| == 16 && |opc| == 16 && |rand| == 16 }

    function Temp(): (r: seq<bv8>)
      requires Valid()
      ensures |r| == 16
    {
      E(k, Xor(rand, opc))
    }

    function Out1(sqn: seq<bv8>, amf: seq<bv8>): (r: seq<bv8>)
      requires Valid() && |sqn| == 6 && |amf| == 2
      ensures |r| == 16
    {
      var in1 := sqn + amf + sqn + amf;
      Xor(E(k, Xor(Rot(Xor(in1, opc), 8), Temp())), opc)
    }

    /** OUT2 to OUT5, rotated left by `n` bytes and told apart by `c`. */
    function Out(n: nat, c: bv8): (r: seq<bv8>)
      requires Valid()
      ensures |r| == 16
    {
      Xor(E(k, Low(Rot(Xor(Temp(), opc), n), c)), opc)
    }

    function F1(sqn: seq<bv8>, amf: seq<bv8>): (r: seq<bv8>)
      requires Valid() && |sqn| == 6 && |amf| == 2
      ensures |r| == 8
    {
      Out1(sqn, amf)[..8]
    }

    function F1Star(sqn: seq<bv8>, amf: seq<bv8>): (r: seq<bv8>)
      requires Valid() && |sqn| == 6 && |amf| == 2
      ensures |r| == 8
    {
      Out1(sqn, amf)[8..]
    }

    function F2(): (r: seq<bv8>)
      requires Valid()
      ensures |r| == 8
    {
      Out(0, 1)[8..]
    }

    function F3(): (r: seq<bv8>)
      requires Valid()
      ensures |r| == 16
    {
      Out(4, 2)
    }

    function F4(): (r: seq<bv8>)
      requires Valid()
      ensures |r| == 16
    {
      Out(8, 4)
    }

    function F5(): (r: seq<bv8>)
      requires Valid()
      ensures |r| == 6
    {
      Out(0, 1)[..6]
    }

    function F5Star(): (r: seq<bv8>)
      requires Valid()
      ensures |r| == 6
    {
      Out(12, 8)[..6]
    }

    /** The network's token: SQN under the anonymity key, AMF and MAC-A. */
    function Autn(sqn: seq<bv8>, amf: seq<bv8>): (r: seq<bv8>)
      requires Valid() && |sqn| == 6 && |amf| == 2
      ensures |r| == 16
    {
      Xor(sqn, F5()) + amf + F1(sqn, amf)
    }

    /** The subscriber's answer when the network's SQN is behind. */
    function Auts(sqn: seq<bv8>): (r: seq<bv8>)
      requires Valid() && |sqn| == 6
      ensures |r| == 14
    {
      Xor(sqn, F5Star()) + F1Star(sqn, [0, 0])
    }

    /** The SQN a token carries. */
    function ReceivedSqn(autn: seq<bv8>): (r: seq<bv8>)
      requires Valid() && |autn| == 16
      ensures |r| == 6
    {
      Xor(autn[..6], F5())
    }

    /** The MAC-A a token should carry. */
    function ExpectedMac(autn: seq<bv8>): (r: seq<bv8>)
      requires Valid() && |autn| == 16
      ensures |r| == 8
    {
      F1(ReceivedSqn(autn), [autn[6], autn[7]])
    }

    /** What the subscriber makes of a token. */
    function CheckCode(sqn: seq<bv8>, autn: seq<bv8>): int
      requires Valid() && |sqn| == 6 && |autn| == 16
    {
      if MemCmp(ReceivedSqn(autn), sqn) <= 0 then -2
      else if MemCmp(ExpectedMac(autn), autn[8..]) != 0 then -1
      else 0
    }

    function AutsSqn(auts: seq<bv8>): (r: seq<bv8>)
      requires Valid() && |auts| == 14
      ensures |r| == 6
    {
      Xor(auts[..6], F5Star())
    }

    /** What the network makes of a resynchronisation token. */
    function AutsCode(auts: seq<bv8>): int
      requires Valid() && |auts| == 14
    {
      if F1Star(AutsSqn(auts), [0, 0]) == auts[6..] then 0 else -1
    }
  }

  // ---------- os_memcmp ----------

  /** The first place two strings differ, or their length. */
  function FirstDifference(a: seq<bv8>, b: seq<bv8>): (d: nat)
    requires |a| == |b|
    ensures d <= |a| && a[..d] == b[..d]
    ensures d < |a| ==> a[d] != b[d]
    ensures d == |a| <==> a == b
  {
    if a == [] || a[0] != b[0] then 0
    else
      var d := FirstDifference(a[1..], b[1..]);
      assert a == [a[0]] + a[1..] && b == [b[0]] + b[1..];
      assert a[..d + 1] == [a[0]] + a[1..][..d] && b[..d + 1] == [b[0]] + b[1..][..d];
      d + 1
  }

  /** The index of the first difference, negative when the first string is the smaller there. */
  function MemCmp(a: seq<bv8>, b: seq<bv8>): int
    requires |a| == |b|
  {
    var d: int := FirstDifference(a, b);
    if d == |a| then 0 else if a[d] < b[d] then -d else d
  }

  /** A string as a number, first byte highest. */
  function BigEndian(s: seq<bv8>): nat {
    if s == [] then 0 else BigEndian(s[..|s| - 1]) * 256 + s[|s| - 1] as nat
  }

  lemma DifferenceIs(a: seq<bv8>, b: seq<bv8>, d: nat)
    requires |a| == |b| && d <= |a| && a[..d] == b[..d] && (d == |a| || a[d] != b[d])
    ensures FirstDifference(a, b) == d
  {
    var e := FirstDifference(a, b);
    assert forall i | 0 <= i < d :: a[i] == a[..d][i] == b[..d][i] == b[i];
    assert forall i | 0 <= i < e :: a[i] == a[..e][i] == b[..e][i] == b[i];
  }

  /** os_memcmp tells where the first difference is, its sign which string is the smaller there. */
  lemma MemCmpIs(a: seq<bv8>, b: seq<bv8>, d: nat)
    requires |a| == |b| && d < |a| && a[..d] == b[..d] && a[d] != b[d]
    ensures a[d] < b[d] ==> MemCmp(a, b) == -(d as int)
    ensures b[d] < a[d] ==> MemCmp(a, b) == d
  {
    DifferenceIs(a, b, d);
  }

  lemma {:induction false} FirstDifferenceOrders(a: seq<bv8>, b: seq<bv8>)
    requires |a| == |b|
    ensures
      var d := FirstDifference(a, b);
      d < |a| ==> BigEndian(a) != BigEndian(b) && (BigEndian(a) < BigEndian(b) <==> a[d] < b[d])
  {
    var d, n := FirstDifference(a, b), |a| - 1;
    if d <= n {
      hide FirstDifference;
      assert a[..n][..d] == a[..d] && b[..n][..d] == b[..d];
      ByteOrder(a[n], b[n]);
      if d < n {
        DifferenceIs(a[..n], b[..n], d);
        FirstDifferenceOrders(a[..n], b[..n]);
      } else {
        assert a[..n] == b[..n];
      }
    }
  }

  lemma ByteOrder(x: bv8, y: bv8)
    ensures x < y <==> x as nat < y as nat
    ensures x != y ==> x as nat != y as nat
    ensures x as nat < 256 && y as nat < 256
  {}

  /** os_memcmp orders as the numbers do exactly when the first difference is not in the first byte. */
  lemma MemCmpOrders(a: seq<bv8>, b: seq<bv8>)
    requires |a| == |b| > 0
    ensures MemCmp(a, b) > 0 <==> a[0] == b[0] && BigEndian(a) > BigEndian(b)
    ensures MemCmp(a, b) < 0 <==> a[0] == b[0] && BigEndian(a) < BigEndian(b)
    ensures MemCmp(a, b) == 0 <==> a == b || a[0] != b[0]
  {
    FirstDifferenceOrders(a, b);
    var d := FirstDifference(a, b);
    if d > 0 { assert a[..d][0] == b[..d][0]; }
    ByteOrder(if d < |a| then a[d] else 0, if d < |a| then b[d] else 0);
  }

  // ---------- the two sides ----------

  lemma XorCancels(a: seq<bv8>, b: seq<bv8>)
    requires |a| == |b|
    ensures Xor(Xor(a, b), b) == a
  {
    forall i | 0 <= i < |a| ensures Xor(Xor(a, b), b)[i] == a[i] {
      hide Add;
      AddCancels(a[i], b[i]);
    }
  }

  /** A token gives back its SQN and carries its own MAC-A. */
  lemma AutnParts(c: Challenge, sqn: seq<bv8>, amf: seq<bv8>)
    requires c.Valid() && |sqn| == 6 && |amf| == 2
    ensures c.ReceivedSqn(c.Autn(sqn, amf)) == sqn
    ensures c.ExpectedMac(c.Autn(sqn, amf)) == c.Autn(sqn, amf)[8..] == c.F1(sqn, amf)
  {
    hide Xor, c.F1, c.F5;
    var autn := c.Autn(sqn, amf);
    assert autn[..6] == Xor(sqn, c.F5());
    assert [autn[6], autn[7]] == amf;
    XorCancels(sqn, c.F5());
  }

  /** The subscriber accepts the network's own token exactly when its SQN is ahead in the order of os_memcmp,
      and otherwise asks to resynchronise. */
  lemma Agreement(c: Challenge, networkSqn: seq<bv8>, sqn: seq<bv8>, amf: seq<bv8>)
    requires c.Valid() && |networkSqn| == |sqn| == 6 && |amf| == 2
    ensures c.CheckCode(sqn, c.Autn(networkSqn, amf))
         == if networkSqn[0] == sqn[0] && BigEndian(networkSqn) > BigEndian(sqn) then 0 else -2
  {
    hide Xor, BigEndian, MemCmp, c.F1, c.F5, c.Autn, c.ReceivedSqn, c.ExpectedMac;
    AutnParts(c, networkSqn, amf);
    MemCmpOrders(networkSqn, sqn);
    MemCmpOrders(c.F1(networkSqn, amf), c.F1(networkSqn, amf));
  }

  /** A network ahead in the first byte is asked to resynchronise all the same. */
  lemma FirstByteIgnored(c: Challenge, amf: seq<bv8>)
    requires c.Valid() && |amf| == 2
    ensures
      var networkSqn, sqn := [1, 0, 0, 0, 0, 0], [0, 0, 0, 0, 0, 0];
      BigEndian(networkSqn) > BigEndian(sqn) && c.CheckCode(sqn, c.Autn(networkSqn, amf)) == -2
  {
    var networkSqn: seq<bv8>, sqn: seq<bv8> := [1, 0, 0, 0, 0, 0], [0, 0, 0, 0, 0, 0];
    Agreement(c, networkSqn, sqn, amf);
    DifferenceIs(networkSqn, sqn, 0);
    FirstDifferenceOrders(networkSqn, sqn);
  }

  /** What each answer of the subscriber says about the token. */
  lemma CheckOutcome(c: Challenge, sqn: seq<bv8>, autn: seq<bv8>)
    requires c.Valid() && |sqn| == 6 && |autn| == 16
    ensures
      var rx := c.ReceivedSqn(autn);
      var ahead := rx[0] == sqn[0] && BigEndian(rx) > BigEndian(sqn);
      var mac := c.ExpectedMac(autn);
      && (c.CheckCode(sqn, autn) == -2 <==> !ahead)
      && (c.CheckCode(sqn, autn) == 0 <==> ahead && (autn == c.Autn(rx, [autn[6], autn[7]]) || mac[0] != autn[8]))
      && (c.CheckCode(sqn, autn) == -1 <==> ahead && mac[0] == autn[8] && mac != autn[8..])
  {
    hide Xor, BigEndian, MemCmp, c.F1, c.F5, c.Autn, c.ReceivedSqn, c.ExpectedMac;
    var rx := c.ReceivedSqn(autn);
    var mac := c.ExpectedMac(autn);
    MemCmpOrders(rx, sqn);
    MemCmpOrders(mac, autn[8..]);
    GenuineToken(c, autn);
  }

  lemma GenuineToken(c: Challenge, autn: seq<bv8>)
    requires c.Valid() && |autn| == 16
    ensures autn == c.Autn(c.ReceivedSqn(autn), [autn[6], autn[7]]) <==> c.ExpectedMac(autn) == autn[8..]
  {
    hide Xor, c.F1, c.F5;
    XorCancels(autn[..6], c.F5());
    var genuine := c.Autn(c.ReceivedSqn(autn), [autn[6], autn[7]]);
    assert autn == autn[..6] + [autn[6], autn[7]] + autn[8..];
    assert genuine[8..] == c.ExpectedMac(autn);
  }

  /** A token with the SQN and AMF of the network's own is accepted with any MAC that is wrong in its first byte. */
  lemma WrongMacAccepted(c: Challenge, networkSqn: seq<bv8>, sqn: seq<bv8>, amf: seq<bv8>, mac: seq<bv8>)
    requires c.Valid() && |networkSqn| == |sqn| == 6 && |amf| == 2 && |mac| == 8
    requires networkSqn[0] == sqn[0] && BigEndian(networkSqn) > BigEndian(sqn)
    requires mac[0] != c.F1(networkSqn, amf)[0]
    ensures
      var token := c.Autn(networkSqn, amf)[..8] + mac;
      token != c.Autn(networkSqn, amf) && c.CheckCode(sqn, token) == 0
  {
    hide Xor, BigEndian, c.F1, c.F5, c.Autn, c.ReceivedSqn, c.ExpectedMac, c.CheckCode;
    var token := c.Autn(networkSqn, amf)[..8] + mac;
    AutnParts(c, networkSqn, amf);
    SameReading(c, token, c.Autn(networkSqn, amf));
    assert token[8] == mac[0] && c.Autn(networkSqn, amf)[8..][0] == c.Autn(networkSqn, amf)[8];
    CheckOutcome(c, sqn, token);
  }

  /** SQN and expected MAC are read from the first eight bytes of a token. */
  lemma SameReading(c: Challenge, a: seq<bv8>, b: seq<bv8>)
    requires c.Valid() && |a| == |b| == 16 && a[..8] == b[..8]
    ensures c.ReceivedSqn(a) == c.ReceivedSqn(b) && c.ExpectedMac(a) == c.ExpectedMac(b)
  {
    hide Xor, c.F1, c.F5;
    assert a[..6] == a[..8][..6] && b[..6] == b[..8][..6];
    assert a[6] == a[..8][6] && b[6] == b[..8][6] && a[7] == a[..8][7] && b[7] == b[..8][7];
  }

  /** The network reads back the SQN of a resynchronisation token, and accepts no other token with that SQN. */
  lemma Resynchronised(c: Challenge, sqn: seq<bv8>)
    requires c.Valid() && |sqn| == 6
    ensures c.AutsCode(c.Auts(sqn)) == 0 && c.AutsSqn(c.Auts(sqn)) == sqn
  {
    hide Xor, c.F1Star, c.F5Star;
    var auts := c.Auts(sqn);
    assert auts[..6] == Xor(sqn, c.F5Star()) && auts[6..] == c.F1Star(sqn, [0, 0]);
    XorCancels(sqn, c.F5Star());
  }

  lemma AutsGenuine(c: Challenge, auts: seq<bv8>)
    requires c.Valid() && |auts| == 14
    ensures c.AutsCode(auts) == 0 <==> auts == c.Auts(c.AutsSqn(auts))
    ensures c.AutsCode(auts) == -1 <==> auts != c.Auts(c.AutsSqn(auts))
  {
    hide Xor, c.F1Star, c.F5Star;
    XorCancels(auts[..6], c.F5Star());
    var sqn := c.AutsSqn(auts);
    assert auts == auts[..6] + auts[6..];
    assert c.Auts(sqn)[6..] == c.F1Star(sqn, [0, 0]);
  }
}
