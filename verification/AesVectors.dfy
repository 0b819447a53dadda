/** Known answers of AES: the key schedules of appendix A and the cipher example of appendix B of FIPS 197. */
module AesVectors {
  import opened Bytes
  import opened Words
  import opened AesSpec
  import opened AesTables
  import opened Aes
  import AriaTables
  import SBoxes

  /** A table with the values of the S-box that the generator computes. */
  ghost predicate IsAesBox(s: seq<byte>) {
    IsTable(s) && forall b: byte {:trigger Sub(s, b)} :: Sub(s, b) == AriaTables.Sb1(b)
  }

  lemma GeneratedBox(s: seq<byte>)
    requires IsTable(s) && forall i :: 0 <= i < 256 ==> s[i] == SBoxAt(i)
    ensures IsAesBox(s)
  {
    hide SBox, AriaTables.Sb1, ByteOf;
    forall b: byte
      ensures Sub(s, b) == AriaTables.Sb1(b)
    {
      assert s[b as int] == SBoxAt(b as int);
      ByteIntInjective(ByteOf(b as int), b);
      SBoxes.AesBoxIsSb1(b);
    }
  }

  // ---- words and states in hexadecimal ----

  function S(a: bv32, b: bv32, c: bv32, d: bv32): State { State(C(a), C(b), C(c), C(d)) }

  function Boxed(c: Col): Col {
    Col(AriaTables.Sb1(c.b0), AriaTables.Sb1(c.b1), AriaTables.Sb1(c.b2), AriaTables.Sb1(c.b3))
  }

  lemma BoxedIs(s: seq<byte>, c: Col)
    requires IsAesBox(s)
    ensures SubCol(s, c) == Boxed(c)
  {
    hide AriaTables.Sb1;
  }

  // ---- the key schedules ----

  /** The round constants in full. */
  lemma Rcons()
    ensures Rcon(0) == 0x01 && Rcon(1) == 0x02 && Rcon(2) == 0x04 && Rcon(3) == 0x08 && Rcon(4) == 0x10
    ensures Rcon(5) == 0x20 && Rcon(6) == 0x40 && Rcon(7) == 0x80 && Rcon(8) == 0x1B && Rcon(9) == 0x36
  {
    hide Rcon;
    forall i | 0 <= i < 10
      ensures Rcon(i) == RoundConstant(i)
    {
      RoundConstantIs(i);
    }
  }

  /** The first word of a group: the last one rotated and substituted, the round constant, the word before. */
  function GroupCol(before: Col, last: Col, rc: byte): Col {
    XorCol(before, XorCol(Boxed(Col(last.b1, last.b2, last.b3, last.b0)), Col(rc, 0, 0, 0)))
  }

  function GroupState(k: State, rc: byte): State {
    var g := GroupCol(k.c0, k.c3, rc);
    var h := XorCol(k.c1, g);
    var l := XorCol(k.c2, h);
    State(g, h, l, XorCol(k.c3, l))
  }

  lemma NextGroup(s: seq<byte>, key: seq<byte>, nk: nat, i: nat)
    requires IsAesBox(s) && |key| == 4 * nk && nk > 0 && i >= nk && i % nk == 0
    ensures KeyCol(s, key, nk, i)
         == GroupCol(KeyCol(s, key, nk, i - nk), KeyCol(s, key, nk, i - 1), Rcon(i / nk - 1))
  {
    hide XorCol, Boxed, Rcon, SubCol;
    var last := KeyCol(s, key, nk, i - 1);
    BoxedIs(s, Col(last.b1, last.b2, last.b3, last.b0));
  }

  lemma NextPlain(s: seq<byte>, key: seq<byte>, nk: nat, i: nat)
    requires IsTable(s) && |key| == 4 * nk && nk > 0 && i >= nk && i % nk != 0 && !(nk > 6 && i % nk == 4)
    ensures KeyCol(s, key, nk, i) == XorCol(KeyCol(s, key, nk, i - nk), KeyCol(s, key, nk, i - 1))
  {
    hide XorCol, SubCol;
  }

  lemma NextMiddle(s: seq<byte>, key: seq<byte>, i: nat)
    requires IsAesBox(s) && |key| == 32 && i >= 8 && i % 8 == 4
    ensures KeyCol(s, key, 8, i) == XorCol(KeyCol(s, key, 8, i - 8), Boxed(KeyCol(s, key, 8, i - 1)))
  {
    hide XorCol, Boxed, SubCol;
    BoxedIs(s, KeyCol(s, key, 8, i - 1));
  }

  lemma NextState(s: seq<byte>, key: seq<byte>, i: nat)
    requires IsAesBox(s) && |key| == 16
    ensures KeyState(s, key, 4, i + 1) == GroupState(KeyState(s, key, 4, i), Rcon(i))
  {
    hide XorCol, GroupCol, Rcon, KeyCol;
    NextGroup(s, key, 4, 4 * i + 4);
    NextPlain(s, key, 4, 4 * i + 5);
    NextPlain(s, key, 4, 4 * i + 6);
    NextPlain(s, key, 4, 4 * i + 7);
  }

  const KEY128: seq<byte> :=
    [0x2B, 0x7E, 0x15, 0x16, 0x28, 0xAE, 0xD2, 0xA6, 0xAB, 0xF7, 0x15, 0x88, 0x09, 0xCF, 0x4F, 0x3C]

  /** The round keys of appendix A.1. */
  function RoundKey128(i: nat): State
    requires i <= 10
  {
    if i == 0 then S(0x2B7E1516, 0x28AED2A6, 0xABF71588, 0x09CF4F3C)
    else if i == 1 then S(0xA0FAFE17, 0x88542CB1, 0x23A33939, 0x2A6C7605)
    else if i == 2 then S(0xF2C295F2, 0x7A96B943, 0x5935807A, 0x7359F67F)
    else if i == 3 then S(0x3D80477D, 0x4716FE3E, 0x1E237E44, 0x6D7A883B)
    else if i == 4 then S(0xEF44A541, 0xA8525B7F, 0xB671253B, 0xDB0BAD00)
    else if i == 5 then S(0xD4D1C6F8, 0x7C839D87, 0xCAF2B8BC, 0x11F915BC)
    else if i == 6 then S(0x6D88A37A, 0x110B3EFD, 0xDBF98641, 0xCA0093FD)
    else if i == 7 then S(0x4E54F70E, 0x5F5FC9F3, 0x84A64FB2, 0x4EA6DC4F)
    else if i == 8 then S(0xEAD27321, 0xB58DBAD2, 0x312BF560, 0x7F8D292F)
    else if i == 9 then S(0xAC7766F3, 0x19FADC21, 0x28D12941, 0x575C006E)
    else S(0xD014F9A8, 0xC9EE2589, 0xE13F0CC8, 0xB6630CA6)
  }

  lemma Key128Loaded(s: seq<byte>)
    requires IsAesBox(s)
    ensures KeyState(s, KEY128, 4, 0) == RoundKey128(0)
  {
    assert KeyCol(s, KEY128, 4, 0) == C(0x2B7E1516) && KeyCol(s, KEY128, 4, 1) == C(0x28AED2A6);
    assert KeyCol(s, KEY128, 4, 2) == C(0xABF71588) && KeyCol(s, KEY128, 4, 3) == C(0x09CF4F3C);
  }

  lemma {:induction false} KnownSchedule128(s: seq<byte>, i: nat)
    requires IsAesBox(s) && i <= 10
    ensures KeyState(s, KEY128, 4, i) == RoundKey128(i)
  {
    hide KeyState, RoundKey128, GroupState, Rcon, IsAesBox;
    if i == 0 {
      Key128Loaded(s);
    } else {
      KnownSchedule128(s, i - 1);
      NextState(s, KEY128, i - 1);
      Group128(i - 1);
    }
  }

  lemma Group128(i: nat)
    requires i < 10
    ensures GroupState(RoundKey128(i), Rcon(i)) == RoundKey128(i + 1)
  {
    hide GroupState, Rcon;
    Rcons();
    Groups128();
  }

  lemma Groups128()
    ensures GroupState(S(0x2B7E1516, 0x28AED2A6, 0xABF71588, 0x09CF4F3C), 0x01)
         == S(0xA0FAFE17, 0x88542CB1, 0x23A33939, 0x2A6C7605)
    ensures GroupState(S(0xA0FAFE17, 0x88542CB1, 0x23A33939, 0x2A6C7605), 0x02)
         == S(0xF2C295F2, 0x7A96B943, 0x5935807A, 0x7359F67F)
    ensures GroupState(S(0xF2C295F2, 0x7A96B943, 0x5935807A, 0x7359F67F), 0x04)
         == S(0x3D80477D, 0x4716FE3E, 0x1E237E44, 0x6D7A883B)
    ensures GroupState(S(0x3D80477D, 0x4716FE3E, 0x1E237E44, 0x6D7A883B), 0x08)
         == S(0xEF44A541, 0xA8525B7F, 0xB671253B, 0xDB0BAD00)
    ensures GroupState(S(0xEF44A541, 0xA8525B7F, 0xB671253B, 0xDB0BAD00), 0x10)
         == S(0xD4D1C6F8, 0x7C839D87, 0xCAF2B8BC, 0x11F915BC)
    ensures GroupState(S(0xD4D1C6F8, 0x7C839D87, 0xCAF2B8BC, 0x11F915BC), 0x20)
         == S(0x6D88A37A, 0x110B3EFD, 0xDBF98641, 0xCA0093FD)
    ensures GroupState(S(0x6D88A37A, 0x110B3EFD, 0xDBF98641, 0xCA0093FD), 0x40)
         == S(0x4E54F70E, 0x5F5FC9F3, 0x84A64FB2, 0x4EA6DC4F)
    ensures GroupState(S(0x4E54F70E, 0x5F5FC9F3, 0x84A64FB2, 0x4EA6DC4F), 0x80)
         == S(0xEAD27321, 0xB58DBAD2, 0x312BF560, 0x7F8D292F)
    ensures GroupState(S(0xEAD27321, 0xB58DBAD2, 0x312BF560, 0x7F8D292F), 0x1B)
         == S(0xAC7766F3, 0x19FADC21, 0x28D12941, 0x575C006E)
    ensures GroupState(S(0xAC7766F3, 0x19FADC21, 0x28D12941, 0x575C006E), 0x36)
         == S(0xD014F9A8, 0xC9EE2589, 0xE13F0CC8, 0xB6630CA6)
  {}

  const KEY192: seq<byte> :=
    [0x8E, 0x73, 0xB0, 0xF7, 0xDA, 0x0E, 0x64, 0x52, 0xC8, 0x10, 0xF3, 0x2B, 0x80, 0x90, 0x79, 0xE5,
     0x62, 0xF8, 0xEA, 0xD2, 0x52, 0x2C, 0x6B, 0x7B]

  const KEY256: seq<byte> :=
    [0x60, 0x3D, 0xEB, 0x10, 0x15, 0xCA, 0x71, 0xBE, 0x2B, 0x73, 0xAE, 0xF0, 0x85, 0x7D, 0x77, 0x81,
     0x1F, 0x35, 0x2C, 0x07, 0x3B, 0x61, 0x08, 0xD7, 0x2D, 0x98, 0x10, 0xA3, 0x09, 0x14, 0xDF, 0xF4]

  lemma Key192First()
    ensures Col(KEY192[0], KEY192[1], KEY192[2], KEY192[3]) == C(0x8E73B0F7)
    ensures Col(KEY192[4], KEY192[5], KEY192[6], KEY192[7]) == C(0xDA0E6452)
  {}

  lemma Key192Second()
    ensures Col(KEY192[8], KEY192[9], KEY192[10], KEY192[11]) == C(0xC810F32B)
    ensures Col(KEY192[12], KEY192[13], KEY192[14], KEY192[15]) == C(0x809079E5)
  {}

  lemma Key192Third()
    ensures Col(KEY192[16], KEY192[17], KEY192[18], KEY192[19]) == C(0x62F8EAD2)
    ensures Col(KEY192[20], KEY192[21], KEY192[22], KEY192[23]) == C(0x522C6B7B)
  {}

  lemma Key192Loaded(s: seq<byte>)
    requires IsAesBox(s)
    ensures KeyCol(s, KEY192, 6, 0) == C(0x8E73B0F7) && KeyCol(s, KEY192, 6, 1) == C(0xDA0E6452)
    ensures KeyCol(s, KEY192, 6, 2) == C(0xC810F32B) && KeyCol(s, KEY192, 6, 3) == C(0x809079E5)
    ensures KeyCol(s, KEY192, 6, 4) == C(0x62F8EAD2) && KeyCol(s, KEY192, 6, 5) == C(0x522C6B7B)
  {
    hide KEY192, C;
    Key192First();
    Key192Second();
    Key192Third();
  }

  lemma Key256First()
    ensures Col(KEY256[0], KEY256[1], KEY256[2], KEY256[3]) == C(0x603DEB10)
    ensures Col(KEY256[4], KEY256[5], KEY256[6], KEY256[7]) == C(0x15CA71BE)
  {}

  lemma Key256Second()
    ensures Col(KEY256[8], KEY256[9], KEY256[10], KEY256[11]) == C(0x2B73AEF0)
    ensures Col(KEY256[12], KEY256[13], KEY256[14], KEY256[15]) == C(0x857D7781)
  {}

  lemma Key256Third()
    ensures Col(KEY256[16], KEY256[17], KEY256[18], KEY256[19]) == C(0x1F352C07)
    ensures Col(KEY256[20], KEY256[21], KEY256[22], KEY256[23]) == C(0x3B6108D7)
  {}

  lemma Key256Fourth()
    ensures Col(KEY256[24], KEY256[25], KEY256[26], KEY256[27]) == C(0x2D9810A3)
    ensures Col(KEY256[28], KEY256[29], KEY256[30], KEY256[31]) == C(0x0914DFF4)
  {}

  lemma Key256Loaded(s: seq<byte>)
    requires IsAesBox(s)
    ensures KeyCol(s, KEY256, 8, 0) == C(0x603DEB10) && KeyCol(s, KEY256, 8, 1) == C(0x15CA71BE)
    ensures KeyCol(s, KEY256, 8, 2) == C(0x2B73AEF0) && KeyCol(s, KEY256, 8, 3) == C(0x857D7781)
    ensures KeyCol(s, KEY256, 8, 4) == C(0x1F352C07) && KeyCol(s, KEY256, 8, 5) == C(0x3B6108D7)
    ensures KeyCol(s, KEY256, 8, 6) == C(0x2D9810A3) && KeyCol(s, KEY256, 8, 7) == C(0x0914DFF4)
  {
    hide KEY256, C;
    Key256First();
    Key256Second();
    Key256Third();
    Key256Fourth();
  }

  /** Appendix A.2: the words of the first group of a 192-bit key, and the first word of the next. */
  lemma KnownSchedule192(s: seq<byte>)
    requires IsAesBox(s)
    ensures KeyCol(s, KEY192, 6, 6) == C(0xFE0C91F7)
    ensures KeyCol(s, KEY192, 6, 7) == C(0x2402F5A5)
    ensures KeyCol(s, KEY192, 6, 8) == C(0xEC12068E)
    ensures KeyCol(s, KEY192, 6, 9) == C(0x6C827F6B)
    ensures KeyCol(s, KEY192, 6, 10) == C(0x0E7A95B9)
    ensures KeyCol(s, KEY192, 6, 11) == C(0x5C56FEC2)
    ensures KeyCol(s, KEY192, 6, 12) == C(0x4DB7B4BD)
  {
    hide KeyCol, GroupCol, XorCol, C, Rcon;
    Key192Loaded(s);
    Rcons();
    Words192();
    NextGroup(s, KEY192, 6, 6);
    NextPlain(s, KEY192, 6, 7);
    NextPlain(s, KEY192, 6, 8);
    NextPlain(s, KEY192, 6, 9);
    NextPlain(s, KEY192, 6, 10);
    NextPlain(s, KEY192, 6, 11);
    NextGroup(s, KEY192, 6, 12);
  }

  lemma Words192()
    ensures GroupCol(C(0x8E73B0F7), C(0x522C6B7B), 0x01) == C(0xFE0C91F7)
    ensures XorCol(C(0xDA0E6452), C(0xFE0C91F7)) == C(0x2402F5A5)
    ensures XorCol(C(0xC810F32B), C(0x2402F5A5)) == C(0xEC12068E)
    ensures XorCol(C(0x809079E5), C(0xEC12068E)) == C(0x6C827F6B)
    ensures XorCol(C(0x62F8EAD2), C(0x6C827F6B)) == C(0x0E7A95B9)
    ensures XorCol(C(0x522C6B7B), C(0x0E7A95B9)) == C(0x5C56FEC2)
    ensures GroupCol(C(0xFE0C91F7), C(0x5C56FEC2), 0x02) == C(0x4DB7B4BD)
  {}

  /** Appendix A.3: the words of the first group of a 256-bit key, with the substitution in its middle, and the first
      word of the next. */
  lemma KnownSchedule256(s: seq<byte>)
    requires IsAesBox(s)
    ensures KeyCol(s, KEY256, 8, 8) == C(0x9BA35411)
    ensures KeyCol(s, KEY256, 8, 9) == C(0x8E6925AF)
    ensures KeyCol(s, KEY256, 8, 10) == C(0xA51A8B5F)
    ensures KeyCol(s, KEY256, 8, 11) == C(0x2067FCDE)
    ensures KeyCol(s, KEY256, 8, 12) == C(0xA8B09C1A)
    ensures KeyCol(s, KEY256, 8, 13) == C(0x93D194CD)
    ensures KeyCol(s, KEY256, 8, 14) == C(0xBE49846E)
    ensures KeyCol(s, KEY256, 8, 15) == C(0xB75D5B9A)
    ensures KeyCol(s, KEY256, 8, 16) == C(0xD59AECB8)
  {
    hide KeyCol, GroupCol, XorCol, C, Boxed, Rcon;
    Key256Loaded(s);
    Rcons();
    Words256();
    NextGroup(s, KEY256, 8, 8);
    NextPlain(s, KEY256, 8, 9);
    NextPlain(s, KEY256, 8, 10);
    NextPlain(s, KEY256, 8, 11);
    NextMiddle(s, KEY256, 12);
    NextPlain(s, KEY256, 8, 13);
    NextPlain(s, KEY256, 8, 14);
    NextPlain(s, KEY256, 8, 15);
    NextGroup(s, KEY256, 8, 16);
  }

  lemma Words256()
    ensures GroupCol(C(0x603DEB10), C(0x0914DFF4), 0x01) == C(0x9BA35411)
    ensures XorCol(C(0x1F352C07), Boxed(C(0x2067FCDE))) == C(0xA8B09C1A)
    ensures XorCol(C(0x15CA71BE), C(0x9BA35411)) == C(0x8E6925AF)
    ensures XorCol(C(0x2B73AEF0), C(0x8E6925AF)) == C(0xA51A8B5F)
    ensures XorCol(C(0x857D7781), C(0xA51A8B5F)) == C(0x2067FCDE)
    ensures XorCol(C(0x3B6108D7), C(0xA8B09C1A)) == C(0x93D194CD)
    ensures XorCol(C(0x2D9810A3), C(0x93D194CD)) == C(0xBE49846E)
    ensures XorCol(C(0x0914DFF4), C(0xBE49846E)) == C(0xB75D5B9A)
    ensures GroupCol(C(0x9BA35411), C(0xB75D5B9A), 0x02) == C(0xD59AECB8)
  {}

  // ---- the cipher ----

  function BoxedState(x: State): State { State(Boxed(x.c0), Boxed(x.c1), Boxed(x.c2), Boxed(x.c3)) }

  lemma BoxedStateIs(s: seq<byte>, x: State)
    requires IsAesBox(s)
    ensures SubBytes(s, x) == BoxedState(x)
  {
    hide IsAesBox, SubCol, Boxed;
    BoxedIs(s, x.c0);
    BoxedIs(s, x.c1);
    BoxedIs(s, x.c2);
    BoxedIs(s, x.c3);
  }

  /** The states after each round of the example of appendix B. */
  function RoundState128(i: nat): State
    requires i <= 9
  {
    if i == 0 then S(0x193DE3BE, 0xA0F4E22B, 0x9AC68D2A, 0xE9F84808)
    else if i == 1 then S(0xA49C7FF2, 0x689F352B, 0x6B5BEA43, 0x026A5049)
    else if i == 2 then S(0xAA8F5F03, 0x61DDE3EF, 0x82D24AD2, 0x6832469A)
    else if i == 3 then S(0x486C4EEE, 0x671D9D0D, 0x4DE3B138, 0xD65F58E7)
    else if i == 4 then S(0xE0927FE8, 0xC86363C0, 0xD9B13550, 0x85B8BE01)
    else if i == 5 then S(0xF1006F55, 0xC1924CEF, 0x7CC88B32, 0x5DB5D50C)
    else if i == 6 then S(0x260E2E17, 0x3D41B77D, 0xE86472A9, 0xFDD28B25)
    else if i == 7 then S(0x5A4142B1, 0x1949DC1F, 0xA3E01965, 0x7A8C040C)
    else if i == 8 then S(0xEA835CF0, 0x0445332D, 0x655D98AD, 0x8596B0C5)
    else S(0xEB40F21E, 0x592E3884, 0x8BA113E7, 0x1BC342D2)
  }

  lemma Rounds1To3()
    ensures AddRoundKey(MixColumns(ShiftRows(BoxedState(S(0x193DE3BE, 0xA0F4E22B, 0x9AC68D2A, 0xE9F84808)))),
                        S(0xA0FAFE17, 0x88542CB1, 0x23A33939, 0x2A6C7605))
         == S(0xA49C7FF2, 0x689F352B, 0x6B5BEA43, 0x026A5049)
    ensures AddRoundKey(MixColumns(ShiftRows(BoxedState(S(0xA49C7FF2, 0x689F352B, 0x6B5BEA43, 0x026A5049)))),
                        S(0xF2C295F2, 0x7A96B943, 0x5935807A, 0x7359F67F))
         == S(0xAA8F5F03, 0x61DDE3EF, 0x82D24AD2, 0x6832469A)
    ensures AddRoundKey(MixColumns(ShiftRows(BoxedState(S(0xAA8F5F03, 0x61DDE3EF, 0x82D24AD2, 0x6832469A)))),
                        S(0x3D80477D, 0x4716FE3E, 0x1E237E44, 0x6D7A883B))
         == S(0x486C4EEE, 0x671D9D0D, 0x4DE3B138, 0xD65F58E7)
  {}

  lemma Rounds4To6()
    ensures AddRoundKey(MixColumns(ShiftRows(BoxedState(S(0x486C4EEE, 0x671D9D0D, 0x4DE3B138, 0xD65F58E7)))),
                        S(0xEF44A541, 0xA8525B7F, 0xB671253B, 0xDB0BAD00))
         == S(0xE0927FE8, 0xC86363C0, 0xD9B13550, 0x85B8BE01)
    ensures AddRoundKey(MixColumns(ShiftRows(BoxedState(S(0xE0927FE8, 0xC86363C0, 0xD9B13550, 0x85B8BE01)))),
                        S(0xD4D1C6F8, 0x7C839D87, 0xCAF2B8BC, 0x11F915BC))
         == S(0xF1006F55, 0xC1924CEF, 0x7CC88B32, 0x5DB5D50C)
    ensures AddRoundKey(MixColumns(ShiftRows(BoxedState(S(0xF1006F55, 0xC1924CEF, 0x7CC88B32, 0x5DB5D50C)))),
                        S(0x6D88A37A, 0x110B3EFD, 0xDBF98641, 0xCA0093FD))
         == S(0x260E2E17, 0x3D41B77D, 0xE86472A9, 0xFDD28B25)
  {}

  lemma Rounds7To9()
    ensures AddRoundKey(MixColumns(ShiftRows(BoxedState(S(0x260E2E17, 0x3D41B77D, 0xE86472A9, 0xFDD28B25)))),
                        S(0x4E54F70E, 0x5F5FC9F3, 0x84A64FB2, 0x4EA6DC4F))
         == S(0x5A4142B1, 0x1949DC1F, 0xA3E01965, 0x7A8C040C)
    ensures AddRoundKey(MixColumns(ShiftRows(BoxedState(S(0x5A4142B1, 0x1949DC1F, 0xA3E01965, 0x7A8C040C)))),
                        S(0xEAD27321, 0xB58DBAD2, 0x312BF560, 0x7F8D292F))
         == S(0xEA835CF0, 0x0445332D, 0x655D98AD, 0x8596B0C5)
    ensures AddRoundKey(MixColumns(ShiftRows(BoxedState(S(0xEA835CF0, 0x0445332D, 0x655D98AD, 0x8596B0C5)))),
                        S(0xAC7766F3, 0x19FADC21, 0x28D12941, 0x575C006E))
         == S(0xEB40F21E, 0x592E3884, 0x8BA113E7, 0x1BC342D2)
  {}

  lemma FirstKeyAdded()
    ensures AddRoundKey(S(0x3243F6A8, 0x885A308D, 0x313198A2, 0xE0370734),
                        S(0x2B7E1516, 0x28AED2A6, 0xABF71588, 0x09CF4F3C))
         == S(0x193DE3BE, 0xA0F4E22B, 0x9AC68D2A, 0xE9F84808)
  {}

  lemma LastRound()
    ensures AddRoundKey(ShiftRows(BoxedState(S(0xEB40F21E, 0x592E3884, 0x8BA113E7, 0x1BC342D2))),
                        S(0xD014F9A8, 0xC9EE2589, 0xE13F0CC8, 0xB6630CA6))
         == S(0x3925841D, 0x02DC09FB, 0xDC118597, 0x196A0B32)
  {}

  lemma NextRound(i: nat)
    requires i < 9
    ensures AddRoundKey(MixColumns(ShiftRows(BoxedState(RoundState128(i)))), RoundKey128(i + 1))
         == RoundState128(i + 1)
  {
    hide S, AddRoundKey, MixColumns, ShiftRows, BoxedState;
    Rounds1To3();
    Rounds4To6();
    Rounds7To9();
  }

  lemma TableEnds()
    ensures RoundState128(0) == S(0x193DE3BE, 0xA0F4E22B, 0x9AC68D2A, 0xE9F84808)
    ensures RoundKey128(0) == S(0x2B7E1516, 0x28AED2A6, 0xABF71588, 0x09CF4F3C)
    ensures RoundState128(9) == S(0xEB40F21E, 0x592E3884, 0x8BA113E7, 0x1BC342D2)
    ensures RoundKey128(10) == S(0xD014F9A8, 0xC9EE2589, 0xE13F0CC8, 0xB6630CA6)
  {
    hide S;
  }

  lemma {:induction false} KnownRounds(s: seq<byte>, w: seq<State>, i: nat)
    requires IsTable(s) && IsAesBox(s) && i <= 9 && |w| == 11 && forall k :: 0 <= k <= 10 ==> w[k] == RoundKey128(k)
    ensures CipherRound(s, w, S(0x3243F6A8, 0x885A308D, 0x313198A2, 0xE0370734), i) == RoundState128(i)
  {
    hide IsAesBox, AddRoundKey, MixColumns, ShiftRows, SubBytes, BoxedState, RoundState128, RoundKey128, S;
    if i == 0 {
      FirstKeyAdded();
      TableEnds();
    } else {
      KnownRounds(s, w, i - 1);
      BoxedStateIs(s, RoundState128(i - 1));
      NextRound(i - 1);
    }
  }

  const PLAIN: seq<byte> :=
    [0x32, 0x43, 0xF6, 0xA8, 0x88, 0x5A, 0x30, 0x8D, 0x31, 0x31, 0x98, 0xA2, 0xE0, 0x37, 0x07, 0x34]

  const CIPHER: seq<byte> :=
    [0x39, 0x25, 0x84, 0x1D, 0x02, 0xDC, 0x09, 0xFB, 0xDC, 0x11, 0x85, 0x97, 0x19, 0x6A, 0x0B, 0x32]

  /** The example of appendix B. */
  lemma KnownCipher(s: seq<byte>)
    requires IsTable(s) && IsAesBox(s)
    ensures EncryptBlock(s, KeySchedule(s, KEY128), PLAIN) == CIPHER
  {
    hide IsAesBox, AddRoundKey, MixColumns, ShiftRows, SubBytes, BoxedState, RoundState128, RoundKey128, KeyState;
    hide S, KEY128, PLAIN, CIPHER, BytesToState, StateToBytes;
    ExampleSizes();
    var w := KeySchedule(s, KEY128);
    forall k | 0 <= k <= 10
      ensures w[k] == RoundKey128(k)
    {
      KnownSchedule128(s, k);
    }
    KnownRounds(s, w, 9);
    BoxedStateIs(s, RoundState128(9));
    TableEnds();
    LastRound();
    BlockBytes();
  }

  lemma BlockBytes()
    ensures BytesToState(PLAIN) == S(0x3243F6A8, 0x885A308D, 0x313198A2, 0xE0370734)
    ensures StateToBytes(S(0x3925841D, 0x02DC09FB, 0xDC118597, 0x196A0B32)) == CIPHER
  {}

  /** The whole path through the code gives that answer: generated tables, key schedule and block transform. */
  method EncryptExample() returns (output: array<byte>)
    ensures output[..] == CIPHER
  {
    hide Ready, KeySchedule, EncryptBlock, PLAIN, CIPHER, KEY128, SBoxAt, IsAesBox, BytesToState, StateToBytes, Cipher;
    ExampleSizes();
    var t := GenTables();
    ReadySized(t);
    GeneratedBox(t.fsb);
    var key := ArrayOf(KEY128);
    var input := ArrayOf(PLAIN);
    output := new byte[16];
    var ctx := new AesContext();
    var ret := ctx.SetKeyEnc(t, key, 128);
    ctx.Encrypt(t, input, output);
    KnownCipher(t.fsb);
    BlockIs(t.fsb, ctx.Keys(), PLAIN);
  }

  method ArrayOf(b: seq<byte>) returns (a: array<byte>)
    ensures fresh(a) && a[..] == b
  {
    a := new byte[|b|](i requires 0 <= i < |b| => b[i]);
  }

  lemma ExampleSizes()
    ensures |KEY128| == |PLAIN| == |CIPHER| == 16
  {}

  lemma BlockIs(s: seq<byte>, w: seq<State>, b: seq<byte>)
    requires IsTable(s) && |w| >= 2 && |b| == 16
    ensures EncryptBlock(s, w, b) == StateToBytes(Cipher(s, w, BytesToState(b)))
  {}
}
