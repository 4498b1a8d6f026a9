/** The buffers and loops of lib/milenage/milenage.go. */
module Milenage {
  import opened Gf256
  import opened AesCipher
  import opened Aes
  import opened AesSchedule
  import opened MilenageFunctions

  /** The buffer is none of the others; callers may pass one buffer twice, and a later write then wins. */
  predicate Apart(a: array?<bv8>, b: array?<bv8>, c: array?<bv8>, d: array?<bv8>, e: array?<bv8> := null) {
    a != b && a != c && a != d && a != e
  }

  /** A nil buffer, or one with room. */
  predicate Room(a: array?<bv8>, n: nat) {
    a == null || a.Length >= n
  }

  /** As much of `s` as there is room for. */
  function Fit(s: seq<bv8>, room: nat): (r: seq<bv8>)
    ensures |r| <= room && r <= s && (|s| <= room ==> r == s)
  {
    if |s| <= room then s else s[..room]
  }

  /** A buffer that is not nil now starts with `s`, or with as much of it as it holds; the rest is as it was. */
  twostate predicate Filled(a: array?<bv8>, new s: seq<bv8>)
    reads a
  {
    a != null ==> var t := Fit(s, a.Length); a[..|t|] == t && a[|t|..] == old(a[|t|..])
  }

  /** A buffer that is not nil starts with as much of `s` as it holds. */
  predicate Starts(a: array?<bv8>, s: seq<bv8>)
    reads a
  {
    a != null ==> var t := Fit(s, a.Length); a[..|t|] == t
  }

  /** From an offset on, a buffer that is not nil now has `s`, or as much of it as it holds. */
  twostate predicate FilledFrom(a: array?<bv8>, at: nat, new s: seq<bv8>)
    requires Room(a, at)
    reads a
  {
    a != null ==> var t := Fit(s, a.Length - at);
                  a[..at] == old(a[..at]) && a[at..at + |t|] == t && a[at + |t|..] == old(a[at + |t|..])
  }

  /** From an offset on, the buffer is as it was. */
  twostate predicate Untouched(a: array<bv8>, at: nat)
    reads a
  {
    forall j: nat | at <= j < a.Length :: a[j] == old(a[j])
  }

  method Aes128EncryptBlock(key: seq<bv8>, input: array<bv8>, output: array<bv8>) returns (r: int)
    requires |key| == 16 && input.Length >= 16 && output.Length >= 16
    modifies output
    ensures r == 0 && output[..16] == E(key, old(input[..16])) && output[16..] == old(output[16..])
  {
    hide Expand, Cipher, Rounds, LastRound;
    var rk := new bv32[RtLength(128)];
    var nrounds := AesSetupEnc(rk, key, 128);
    assert nrounds == 10 && rk[..] == rk[..44] == Expand(key, 4, 44);
    AesEncrypt(rk, nrounds, input, output);
    return 0;
  }

  /** The first 16 bytes of a buffer added to a block in place. */
  method AddBlock(a: array<bv8>, s: seq<bv8>)
    requires a.Length >= 16 && |s| == 16
    modifies a
    ensures a[..16] == Xor(old(a[..16]), s) && a[16..] == old(a[16..])
  {
    hide Add;
    for i := 0 to 16
      invariant forall j | 0 <= j < a.Length :: a[j] == if j < i then Add(old(a[j]), s[j]) else old(a[j])
    {
      a[i] := Add(a[i], s[i]);
    }
  }

  /** A place `shift` bytes to the right, round the end. */
  function Turned(j: nat, shift: nat): (r: nat)
    ensures r < 16
  {
    (j + shift) % 16
  }

  /** The sum of two blocks, left to another buffer `shift` bytes to the right, round the end. */
  method AddRotated(a: array<bv8>, s: seq<bv8>, t: seq<bv8>, shift: nat)
    requires a.Length == 16 && |s| == |t| == 16 && shift <= 16
    modifies a
    ensures a[..16] == Rot(Xor(s, t), 16 - shift)
  {
    hide Add, Turned;
    for i := 0 to 16
      invariant forall j: nat | j < i :: a[Turned(j, shift)] == Add(s[j], t[j])
    {
      forall j: nat | j < i ensures Turned(j, shift) != Turned(i, shift) {
        TurnedApart(j, i, shift);
      }
      a[Turned(i, shift)] := Add(s[i], t[i]);
    }
    forall j: nat | j < 16 ensures a[j] == Rot(Xor(s, t), 16 - shift)[j] {
      TurnedBack(j, shift);
    }
  }

  lemma TurnedBack(j: nat, shift: nat)
    requires j < 16 && shift <= 16
    ensures Turned((j + (16 - shift)) % 16, shift) == j
  {}

  lemma TurnedApart(j: nat, i: nat, shift: nat)
    requires j < i < 16 && shift <= 16
    ensures Turned(j, shift) != Turned(i, shift)
  {}

  /** Go's `copy` into a buffer from an offset on: what does not fit is dropped. */
  method CopyTo(a: array<bv8>, at: nat, s: seq<bv8>)
    requires at <= a.Length
    modifies a
    ensures var t := Fit(s, a.Length - at);
            a[..at] == old(a[..at]) && a[at..at + |t|] == t && a[at + |t|..] == old(a[at + |t|..])
    ensures forall j | 0 <= j < a.Length :: a[j] == if at <= j < at + |s| then s[j - at] else old(a[j])
  {
    var n := if |s| <= a.Length - at then |s| else a.Length - at;
    for i := 0 to n
      invariant forall j | 0 <= j < a.Length :: a[j] == if at <= j < at + i then s[j - at] else old(a[j])
    {
      a[at + i] := s[i];
    }
  }

  /** The sum of two blocks. */
  method AddInto(a: array<bv8>, s: seq<bv8>, t: seq<bv8>)
    requires a.Length == 16 && |s| == |t| == 16
    modifies a
    ensures a[..16] == Xor(s, t)
  {
    hide Add;
    for i := 0 to 16
      invariant forall j | 0 <= j < i :: a[j] == Add(s[j], t[j])
    {
      a[i] := Add(s[i], t[i]);
    }
  }

  /** OUT1, of which f1 and f1* are the halves. */
  method Output1(c: Challenge, sqn: seq<bv8>, amf: seq<bv8>) returns (tmp1: array<bv8>)
    requires c.Valid() && |sqn| == 6 && |amf| == 2
    ensures fresh(tmp1) && tmp1.Length == 16 && tmp1[..16] == c.Out1(sqn, amf)
  {
    hide E, Xor, Rot;
    tmp1 := new bv8[16](_ => 0);
    var tmp2, tmp3 := new bv8[16](_ => 0), new bv8[16](_ => 0);
    var rijndaelInput := new bv8[16](_ => 0);
    AddInto(rijndaelInput, c.rand, c.opc);
    var r := Aes128EncryptBlock(c.k, rijndaelInput, tmp1);
    CopyTo(tmp2, 0, sqn);
    CopyTo(tmp2, 6, amf);
    CopyTo(tmp2, 8, tmp2[..8]);
    assert tmp2[..16] == sqn + amf + sqn + amf;
    AddRotated(tmp3, tmp2[..16], c.opc, 8);
    AddBlock(tmp3, tmp1[..16]);
    r := Aes128EncryptBlock(c.k, tmp3, tmp1);
    AddBlock(tmp1, c.opc);
  }

  /** `copy` into a buffer that may be nil. */
  method CopyOut(a: array?<bv8>, s: seq<bv8>)
    modifies a
    ensures Filled(a, s)
  {
    if a != null {
      CopyTo(a, 0, s);
    }
  }

  /** f1 and f1*: MAC-A and MAC-S into the buffers given for them, `at` bytes into the second. */
  method MilenageF1(c: Challenge, sqn: seq<bv8>, amf: seq<bv8>,
                    macA: array?<bv8>, macS: array?<bv8>, at: nat) returns (r: int)
    requires c.Valid() && |sqn| == 6 && |amf| == 2
    requires Room(macS, at)
    modifies macA, macS
    ensures r == 0
    ensures macA != macS ==> Filled(macA, c.F1(sqn, amf))
    ensures macS != null ==> var t := Fit(c.F1Star(sqn, amf), macS.Length - at); macS[at..at + |t|] == t
    ensures macA != macS ==> FilledFrom(macS, at, c.F1Star(sqn, amf))
  {
    hide c.Out1;
    var tmp1 := Output1(c, sqn, amf);
    CopyOut(macA, tmp1[..8]);
    if macS != null {
      CopyTo(macS, at, tmp1[8..16]);
    }
    return 0;
  }

  /** E_K of TEMP plus OPc rotated and told apart by `low`, plus OPc, as OUT2 to OUT5 are made. */
  method Output(c: Challenge, temp: seq<bv8>, shift: nat, low: bv8,
                tmp1: array<bv8>, output: array<bv8>)
    requires c.Valid() && temp == c.Temp() && shift <= 16
    requires tmp1.Length == 16 && output.Length >= 16
    modifies tmp1, output
    ensures output[..16] == c.Out(16 - shift, low) && output[16..] == old(output[16..])
  {
    hide E, Xor, Rot;
    ghost var tail := output[16..];
    AddRotated(tmp1, temp, c.opc, shift);
    tmp1[15] := Add(tmp1[15], low);
    assert tmp1[..16] == Low(Rot(Xor(temp, c.opc), 16 - shift), low);
    var r := Aes128EncryptBlock(c.k, tmp1, output);
    AddBlock(output, c.opc);
  }

  /** One of f3 and f4, into a buffer that may be nil. */
  method OutputOut(c: Challenge, temp: seq<bv8>, shift: nat, low: bv8, tmp1: array<bv8>, output: array?<bv8>)
    requires c.Valid() && temp == c.Temp() && shift <= 16 && tmp1.Length == 16 && Room(output, 16) && tmp1 != output
    modifies tmp1, output
    ensures Filled(output, c.Out(16 - shift, low))
  {
    hide c.Temp, c.Out;
    if output != null {
      Output(c, temp, shift, low, tmp1, output);
    }
  }

  /** f2 to f5 and f5*, into the buffers given for them. */
  method MilenageF2345(c: Challenge, res: array?<bv8>, ck: array?<bv8>, ik: array?<bv8>,
                       ak: array?<bv8>, akstar: array?<bv8>) returns (r: int)
    requires c.Valid()
    requires Room(ck, 16) && Room(ik, 16) && Room(akstar, 6)
    modifies res, ck, ik, ak, akstar
    ensures r == 0
    ensures Apart(res, ak, ck, ik, akstar) ==> Filled(res, c.F2())
    ensures Apart(ak, res, ck, ik, akstar) ==> Filled(ak, c.F5())
    ensures Apart(ck, res, ak, ik, akstar) ==> Filled(ck, c.F3())
    ensures Apart(ik, res, ak, ck, akstar) ==> Filled(ik, c.F4())
    ensures Apart(akstar, res, ak, ck, ik) ==> Filled(akstar, c.F5Star())
    ensures Starts(akstar, c.F5Star())
  {
    hide c.Temp, c.F2, c.F3, c.F4, c.F5, c.F5Star;
    var tmp1, tmp2, tmp3 := Blocks(c);
    var temp := tmp2[..16];
    ResponsePart(c, temp, tmp1, tmp3, res, ak);
    KeyPart(c, temp, tmp1, ck, ik, akstar);
    return 0;
  }

  /** The three blocks f2 to f5 work in, TEMP in the second. */
  method Blocks(c: Challenge) returns (tmp1: array<bv8>, tmp2: array<bv8>, tmp3: array<bv8>)
    requires c.Valid()
    ensures fresh(tmp1) && fresh(tmp2) && fresh(tmp3) && tmp1 != tmp2 && tmp1 != tmp3 && tmp2 != tmp3
    ensures tmp1.Length == tmp2.Length == tmp3.Length == 16 && tmp2[..16] == c.Temp()
  {
    hide E, Xor;
    tmp1, tmp2, tmp3 := new bv8[16](_ => 0), new bv8[16](_ => 0), new bv8[16](_ => 0);
    AddInto(tmp1, c.rand, c.opc);
    var r := Aes128EncryptBlock(c.k, tmp1, tmp2);
  }

  /** f2 and f5. */
  method ResponsePart(c: Challenge, temp: seq<bv8>, tmp1: array<bv8>, tmp3: array<bv8>, res: array?<bv8>, ak: array?<bv8>)
    requires c.Valid() && temp == c.Temp() && tmp1.Length == tmp3.Length == 16 && tmp1 != tmp3
    requires res != tmp1 && res != tmp3 && ak != tmp1 && ak != tmp3
    modifies tmp1, tmp3, res, ak
    ensures res != ak ==> Filled(res, c.F2()) && Filled(ak, c.F5())
  {
    hide c.Temp, c.Out;
    Output(c, temp, 16, 1, tmp1, tmp3);
    CopyOut(res, tmp3[8..16]);
    CopyOut(ak, tmp3[..6]);
  }

  /** f3, f4 and f5*, the last in place. */
  method KeyPart(c: Challenge, temp: seq<bv8>, tmp1: array<bv8>, ck: array?<bv8>, ik: array?<bv8>, akstar: array?<bv8>)
    requires c.Valid() && temp == c.Temp() && tmp1.Length == 16
    requires Room(ck, 16) && Room(ik, 16) && Room(akstar, 6) && ck != tmp1 && ik != tmp1 && akstar != tmp1
    modifies tmp1, ck, ik, akstar
    ensures ck != ik && ck != akstar ==> Filled(ck, c.F3())
    ensures ik != ck && ik != akstar ==> Filled(ik, c.F4())
    ensures akstar != ck && akstar != ik ==> Filled(akstar, c.F5Star())
    ensures Starts(akstar, c.F5Star())
  {
    hide c.Temp, c.Out;
    OutputOut(c, temp, 12, 2, tmp1, ck);
    OutputOut(c, temp, 8, 4, tmp1, ik);
    if akstar != null {
      Output(c, temp, 4, 8, tmp1, tmp1);
      CopyOut(akstar, tmp1[..6]);
    }
  }

  /** os_memcmp. */
  method OsMemcmp(a: seq<bv8>, b: seq<bv8>, num: nat) returns (r: int)
    requires num <= |a| && num <= |b|
    ensures r == MemCmp(a[..num], b[..num])
  {
    for i := 0 to num
      invariant a[..i] == b[..i]
    {
      if a[i] != b[i] {
        assert a[..num][..i] == a[..i] && b[..num][..i] == b[..i];
        DifferenceIs(a[..num], b[..num], i);
      }
      if a[i] < b[i] {
        return -i;
      }
      if a[i] > b[i] {
        return i;
      }
      assert a[..i + 1] == a[..i] + [a[i]] && b[..i + 1] == b[..i] + [b[i]];
    }
    return 0;
  }

  /** MilenageGenerate: the network's token and keys, or nothing when the response buffer is too short. */
  method MilenageGenerate(c: Challenge, amf: seq<bv8>, sqn: seq<bv8>, autn: array<bv8>, ik: array?<bv8>, ck: array?<bv8>,
                          ak: array<bv8>, res: array?<bv8>, resLen: nat) returns (newLen: nat)
    requires c.Valid() && |sqn| == 6 && |amf| == 2
    requires Room(autn, 8) && Room(ik, 16) && Room(ck, 16) && Room(ak, 6)
    modifies autn, ik, ck, ak, res
    ensures newLen == if resLen < 8 then 0 else 8
    ensures resLen < 8 ==> Filled(autn, []) && Filled(ik, []) && Filled(ck, []) && Filled(ak, []) && Filled(res, [])
    ensures resLen >= 8 && Apart(ik, autn, ck, ak, res) ==> Filled(ik, c.F4())
    ensures resLen >= 8 && Apart(ck, autn, ik, ak, res) ==> Filled(ck, c.F3())
    ensures resLen >= 8 && Apart(ak, autn, ik, ck, res) ==> Filled(ak, c.F5())
    ensures resLen >= 8 && Apart(res, autn, ik, ck, ak) ==> Filled(res, c.F2())
    ensures resLen >= 8 && Apart(ak, autn, ik, ck, res) ==> Starts(autn, c.Autn(sqn, amf))
    ensures resLen >= 8 && Apart(autn, ik, ck, ak, res) ==> Untouched(autn, 16)
  {
    hide c.F1, c.F1Star, c.F2, c.F3, c.F4, c.F5, c.F5Star, Add, Xor, Starts;
    if resLen < 8 {
      return 0;
    }
    var macA := new bv8[8](_ => 0);
    var r := MilenageF1(c, sqn, amf, macA, null, 0);
    r := MilenageF2345(c, res, ck, ik, ak, null);
    AssembleAutn(sqn, ak, amf, macA[..8], autn);
    return 8;
  }

  /** SQN under AK, AMF and MAC, the last two written again in every turn. */
  method AssembleAutn(sqn: seq<bv8>, ak: array<bv8>, amf: seq<bv8>, macA: seq<bv8>, autn: array<bv8>)
    requires |sqn| == 6 && |amf| == 2 && |macA| == 8 && ak.Length >= 6 && autn.Length >= 8
    modifies autn
    ensures ak != autn ==> Starts(autn, Xor(sqn, ak[..6]) + amf + macA)
    ensures Untouched(autn, 16)
  {
    hide Add, Xor;
    for i := 0 to 6
      invariant ak != autn ==> forall j | 0 <= j < i :: autn[j] == Add(sqn[j], ak[j])
      invariant i > 0 ==> forall j | 6 <= j < 16 && j < autn.Length :: autn[j] == if j < 8 then amf[j - 6] else macA[j - 8]
      invariant forall j | 16 <= j < autn.Length :: autn[j] == old(autn[j])
    {
      autn[i] := Add(sqn[i], ak[i]);
      CopyTo(autn, 6, amf);
      CopyTo(autn, 8, macA);
    }
    if ak != autn {
      XorBytes(sqn, ak[..6]);
      var token := Xor(sqn, ak[..6]) + amf + macA;
      assert forall j | 0 <= j < 16 && j < autn.Length :: autn[j] == token[j];
    }
  }

  lemma XorBytes(s: seq<bv8>, t: seq<bv8>)
    requires |s| == |t|
    ensures forall j | 0 <= j < |s| :: Xor(s, t)[j] == Add(s[j], t[j])
  {
    hide Add;
  }

  /** Milenage_auts: the subscriber's SQN out of its token, and whether the token is genuine. */
  method MilenageAuts(c: Challenge, auts: seq<bv8>, sqn: array<bv8>) returns (r: int)
    requires c.Valid() && |auts| == 14 && sqn.Length >= 6
    modifies sqn
    ensures r == c.AutsCode(auts) && Filled(sqn, c.AutsSqn(auts))
  {
    hide c.F1, c.F2, c.F3, c.F4, c.F5, c.F5Star, c.F1Star, Add;
    var amf: seq<bv8> := [0, 0];
    var ak, macS := new bv8[6](_ => 0), new bv8[8](_ => 0);
    r := MilenageF2345(c, null, null, null, null, ak);
    for i := 0 to 6
      invariant forall j | 0 <= j < i :: sqn[j] == Add(auts[j], ak[j])
      invariant sqn[6..] == old(sqn[6..])
      modifies sqn
    {
      sqn[i] := Add(auts[i], ak[i]);
    }
    assert sqn[..6] == c.AutsSqn(auts);
    r := MilenageF1(c, sqn[..6], amf, null, macS, 0);
    assert macS[..] == macS[..8] && auts[6..14] == auts[6..];
    if macS[..] != auts[6..14] {
      return -1;
    }
    return 0;
  }

  /** Milenage_check: the subscriber's answer, its keys, and its own token when the SQN is behind. */
  method MilenageCheck(c: Challenge, sqn: seq<bv8>, autn: seq<bv8>, ik: array?<bv8>, ck: array?<bv8>, res: array?<bv8>,
                       auts: array<bv8>) returns (r: int, resLen: nat)
    requires c.Valid() && |sqn| == 6 && |autn| == 16
    requires Room(ik, 16) && Room(ck, 16) && Room(auts, 6)
    modifies ik, ck, res, auts
    ensures r == c.CheckCode(sqn, autn) && resLen == 8
    ensures Apart(ik, ck, res, auts) ==> Filled(ik, c.F4())
    ensures Apart(ck, ik, res, auts) ==> Filled(ck, c.F3())
    ensures Apart(res, ik, ck, auts) ==> Filled(res, c.F2())
    ensures Apart(auts, ik, ck, res) ==> Filled(auts, if r == -2 then c.Auts(sqn) else [])
    ensures r == -2 ==> Starts(auts, c.Auts(sqn))
  {
    hide c.F1, c.F1Star, c.F2, c.F3, c.F4, c.F5, c.F5Star, c.Auts, c.ReceivedSqn, c.ExpectedMac, MemCmp, Xor, Add;
    var ak := new bv8[6](_ => 0);
    r := MilenageF2345(c, res, ck, ik, ak, null);
    resLen := 8;
    var rxSqn, order := CompareSqn(c, autn, ak[..6], sqn);
    if order <= 0 {
      AnswerAuts(c, sqn, ak, auts);
      return -2, 8;
    }
    var macOrder := CompareMac(c, rxSqn, autn);
    return if macOrder != 0 then -1 else 0, 8;
  }

  /** The SQN of a token, uncovered and put against the subscriber's own. */
  method CompareSqn(c: Challenge, autn: seq<bv8>, ak: seq<bv8>, sqn: seq<bv8>) returns (rxSqn: seq<bv8>, order: int)
    requires c.Valid() && |autn| == 16 && ak == c.F5() && |sqn| == 6
    ensures rxSqn == c.ReceivedSqn(autn) && order == MemCmp(rxSqn, sqn)
  {
    hide Add, c.F5, MemCmp;
    var buffer := new bv8[6](_ => 0);
    for i := 0 to 6
      invariant forall j | 0 <= j < i :: buffer[j] == Add(autn[j], ak[j])
    {
      buffer[i] := Add(autn[i], ak[i]);
    }
    rxSqn := buffer[..];
    order := OsMemcmp(rxSqn, sqn, 6);
    assert rxSqn[..6] == rxSqn && sqn[..6] == sqn;
  }

  /** The MAC-A of a token against the one it should carry. */
  method CompareMac(c: Challenge, rxSqn: seq<bv8>, autn: seq<bv8>) returns (order: int)
    requires c.Valid() && |autn| == 16 && rxSqn == c.ReceivedSqn(autn)
    ensures order == MemCmp(c.ExpectedMac(autn), autn[8..])
  {
    hide c.F1, c.F1Star, c.ReceivedSqn, MemCmp;
    var macA := new bv8[8](_ => 0);
    var r := MilenageF1(c, rxSqn, autn[6..][..2], macA, null, 0);
    assert autn[6..][..2] == [autn[6], autn[7]];
    order := OsMemcmp(macA[..], autn[8..], 8);
    assert macA[..][..8] == macA[..8] && autn[8..][..8] == autn[8..];
  }

  /** The token of Milenage_check when the network's SQN is behind. */
  method AnswerAuts(c: Challenge, sqn: seq<bv8>, ak: array<bv8>, auts: array<bv8>)
    requires c.Valid() && |sqn| == 6 && ak.Length == 6 && auts.Length >= 6 && ak != auts
    modifies ak, auts
    ensures Filled(auts, c.Auts(sqn))
  {
    hide c.F1, c.F2, c.F3, c.F4, c.F5, c.F5Star, c.F1Star, Add;
    var autsAmf: seq<bv8> := [0, 0];
    var r := MilenageF2345(c, null, null, null, null, ak);
    for i := 0 to 6
      invariant forall j | 0 <= j < i :: auts[j] == Add(sqn[j], ak[j])
      invariant auts[6..] == old(auts[6..])
      modifies auts
    {
      auts[i] := Add(sqn[i], ak[i]);
    }
    assert auts[..6] == Xor(sqn, c.F5Star());
    ghost var before := auts[6..];
    r := MilenageF1(c, sqn, autsAmf, null, auts, 6);
    ghost var mac := Fit(c.F1Star(sqn, autsAmf), auts.Length - 6);
    hide Xor;
    FitJoined(Xor(sqn, c.F5Star()), c.F1Star(sqn, autsAmf), auts.Length);
    assert auts[..6 + |mac|] == auts[..6] + auts[6..6 + |mac|];
    assert auts[6 + |mac|..] == before[|mac|..] == old(auts[6 + |mac|..]);
  }

  lemma FitJoined(s: seq<bv8>, t: seq<bv8>, room: nat)
    requires |s| <= room
    ensures Fit(s + t, room) == s + Fit(t, room - |s|)
  {}

  /** milenage_opc: OPc from OP. */
  method MilenageOpc(k: seq<bv8>, op: array<bv8>, opc: array<bv8>)
    requires |k| == 16 && op.Length >= 16 && opc.Length >= 16
    modifies opc
    ensures op != opc ==> opc[..16] == Xor(E(k, op[..16]), op[..16])
    ensures op == opc ==> forall j | 0 <= j < 16 :: opc[j] == 0
    ensures opc[16..] == old(opc[16..])
  {
    hide E;
    var r := Aes128EncryptBlock(k, op, opc);
    if op == opc {
      CancelBlock(opc);
    } else {
      hide Xor;
      AddBlock(opc, op[..16]);
    }
  }

  /** The same loop when the two buffers are one: every byte added to itself. */
  method CancelBlock(a: array<bv8>)
    requires a.Length >= 16
    modifies a
    ensures (forall j | 0 <= j < 16 :: a[j] == 0) && a[16..] == old(a[16..])
  {
    hide Add;
    for i := 0 to 16
      invariant forall j | 0 <= j < i :: a[j] == 0
      invariant a[16..] == old(a[16..])
    {
      AddSelf(a[i]);
      a[i] := Add(a[i], a[i]);
    }
  }

  lemma AddSelf(b: bv8)
    ensures Add(b, b) == 0
  {}

  datatype Keys = Keys(res: seq<bv8>, ck: seq<bv8>, ik: seq<bv8>)

  /** The network's side of an authentication, in buffers of its own. */
  method Challenger(c: Challenge, amf: seq<bv8>, sqn: seq<bv8>) returns (token: seq<bv8>, keys: Keys)
    requires c.Valid() && |amf| == 2 && |sqn| == 6
    ensures token == c.Autn(sqn, amf) && keys == Keys(c.F2(), c.F3(), c.F4())
  {
    hide c.F2, c.F3, c.F4, c.F5, c.Autn;
    var autn, ik, ck := new bv8[16](_ => 0), new bv8[16](_ => 0), new bv8[16](_ => 0);
    var ak, res := new bv8[6](_ => 0), new bv8[8](_ => 0);
    var newLen := MilenageGenerate(c, amf, sqn, autn, ik, ck, ak, res, 8);
    return autn[..16], Keys(res[..8], ck[..16], ik[..16]);
  }

  /** The subscriber's side, in buffers of its own. */
  method Subscriber(c: Challenge, sqn: seq<bv8>, autn: seq<bv8>) returns (verdict: int, keys: Keys, answer: seq<bv8>)
    requires c.Valid() && |sqn| == 6 && |autn| == 16
    ensures verdict == c.CheckCode(sqn, autn) && keys == Keys(c.F2(), c.F3(), c.F4())
    ensures verdict == -2 ==> answer == c.Auts(sqn)
  {
    hide c.F2, c.F3, c.F4, c.CheckCode, c.Auts;
    var ik, ck, res, auts := new bv8[16](_ => 0), new bv8[16](_ => 0), new bv8[8](_ => 0), new bv8[14](_ => 0);
    var resLen;
    verdict, resLen := MilenageCheck(c, sqn, autn, ik, ck, res, auts);
    return verdict, Keys(res[..8], ck[..16], ik[..16]), auts[..14];
  }

  /** The two sides run against each other: the network generates, the subscriber checks, and when the network
      is behind it reads the subscriber's SQN out of AUTS. Response and keys agree whatever the verdict. */
  method Session(c: Challenge, amf: seq<bv8>, networkSqn: seq<bv8>, sqn: seq<bv8>)
    returns (verdict: int, sameKeys: bool, autsVerdict: int, recovered: seq<bv8>)
    requires c.Valid() && |amf| == 2 && |networkSqn| == |sqn| == 6
    ensures verdict == if networkSqn[0] == sqn[0] && BigEndian(networkSqn) > BigEndian(sqn) then 0 else -2
    ensures sameKeys
    ensures verdict == -2 ==> autsVerdict == 0 && recovered == sqn
  {
    hide c.F2, c.F3, c.F4, c.Autn, c.CheckCode, c.Auts, BigEndian;
    var autn, networkKeys := Challenger(c, amf, networkSqn);
    var subscriberKeys, auts;
    verdict, subscriberKeys, auts := Subscriber(c, sqn, autn);
    Agreement(c, networkSqn, sqn, amf);
    sameKeys := networkKeys == subscriberKeys;
    autsVerdict, recovered := 0, [];
    if verdict == -2 {
      autsVerdict, recovered := Resynchronise(c, auts, sqn);
    }
  }

  /** The network's side of a resynchronisation. */
  method Resynchronise(c: Challenge, auts: seq<bv8>, ghost sqn: seq<bv8>) returns (verdict: int, recovered: seq<bv8>)
    requires c.Valid() && |sqn| == 6 && auts == c.Auts(sqn)
    ensures verdict == 0 && recovered == sqn
  {
    hide c.Auts, c.AutsCode, c.AutsSqn;
    var buffer := new bv8[6](_ => 0);
    verdict := MilenageAuts(c, auts, buffer);
    recovered := buffer[..6];
    Resynchronised(c, sqn);
  }
}
