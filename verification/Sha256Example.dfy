/**
 The digests of "abc": the first of the test vectors that the implementation carries, for SHA-256 and
 for SHA-224, worked out round by round from the definitions of the standard.
 */
module Sha256Example {
  import opened Sha256Standard
  import opened Sha256Words
  import Sha256

  const Abc: seq<Byte> := [0x61, 0x62, 0x63]

  /** What the vectors say. */
  const Sum256: seq<Byte> :=
    [0xBA, 0x78, 0x16, 0xBF] + [0x8F, 0x01, 0xCF, 0xEA] + [0x41, 0x41, 0x40, 0xDE] + [0x5D, 0xAE, 0x22, 0x23] +
    [0xB0, 0x03, 0x61, 0xA3] + [0x96, 0x17, 0x7A, 0x9C] + [0xB4, 0x10, 0xFF, 0x61] + [0xF2, 0x00, 0x15, 0xAD]

  const Sum224: seq<Byte> :=
    [0x23, 0x09, 0x7D, 0x22] + [0x34, 0x05, 0xD8, 0x22] + [0x86, 0x42, 0xA4, 0x77] + [0xBD, 0xA2, 0x55, 0xB3] +
    [0x2A, 0xAD, 0xBC, 0xE4] + [0xBD, 0xA0, 0xB3, 0xF7] + [0xE3, 0x6C, 0x9D, 0xA7]

  /** The one block that "abc" is padded to. */
  function Message(): (m: Block) {
    PaddedIs();
    Pad(Abc)
  }

  lemma PaddedIs()
    ensures var p := Pad(Abc);
      && |p| == 64 && p[0] == 0x61 && p[1] == 0x62 && p[2] == 0x63 && p[3] == 0x80 && p[63] == 24
      && forall i :: 4 <= i < 63 ==> p[i] == 0
  {
    PaddedThree(Abc);
  }

  lemma PaddedThree(msg: seq<Byte>)
    requires |msg| == 3
    ensures var p := Pad(msg);
      && |p| == 64 && p[..3] == msg && p[3] == 0x80 && p[63] == 24
      && forall i :: 4 <= i < 63 ==> p[i] == 0
  {
    PadIs(msg);
    LengthIs();
    hide Length64, Pad;
  }

  lemma LengthIs()
    ensures Length64(24) == [0, 0, 0, 0, 0, 0, 0, 24]
  {
    NoBytes();
    LowBytes();
    hide ByteWord;
  }

  lemma NoBytes()
    ensures ByteWord(0) == [0, 0, 0, 0]
  {
  }

  lemma LowBytes()
    ensures ByteWord(24) == [0, 0, 0, 24]
  {
  }

  // ---------------------------------------------------------------------------------------
  // The message schedule.
  // ---------------------------------------------------------------------------------------

  function Xor3(x: Word32, y: Word32, z: Word32): Word32 { x ^ y ^ z }

  /** One word of the schedule from four earlier ones; `s1` and `s0` are what the standard's functions give. */
  lemma OneWord(m: Block, t: nat, w2: Word32, w7: Word32, w15: Word32, w16: Word32,
                s1: Word32, s0: Word32, w: Word32)
    requires t >= 16 && Schedule(m, t - 2) == w2 && Schedule(m, t - 7) == w7
    requires Schedule(m, t - 15) == w15 && Schedule(m, t - 16) == w16
    requires Xor3(RotR(17, w2), RotR(19, w2), w2 >> 10) == s1 && Xor3(RotR(7, w15), RotR(18, w15), w15 >> 3) == s0
    requires Add(Add(Add(s1, w7), s0), w16) == w
    ensures Schedule(m, t) == w
  {
    SmallSigmas(w2, w15);
    hide Add, RotR, Xor3, SmallSigma0, SmallSigma1;
  }

  lemma SmallSigmas(x: Word32, y: Word32)
    ensures SmallSigma1(x) == Xor3(RotR(17, x), RotR(19, x), x >> 10)
    ensures SmallSigma0(y) == Xor3(RotR(7, y), RotR(18, y), y >> 3)
  {
    hide RotR;
  }

  ghost predicate Words0(m: Block) {
    && Schedule(m, 0) == 0x61626380 && Schedule(m, 1) == 0x00000000 && Schedule(m, 2) == 0x00000000
    && Schedule(m, 3) == 0x00000000 && Schedule(m, 4) == 0x00000000 && Schedule(m, 5) == 0x00000000
    && Schedule(m, 6) == 0x00000000 && Schedule(m, 7) == 0x00000000
  }

  ghost predicate Words1(m: Block) {
    && Schedule(m, 8) == 0x00000000 && Schedule(m, 9) == 0x00000000 && Schedule(m, 10) == 0x00000000
    && Schedule(m, 11) == 0x00000000 && Schedule(m, 12) == 0x00000000 && Schedule(m, 13) == 0x00000000
    && Schedule(m, 14) == 0x00000000 && Schedule(m, 15) == 0x00000018
  }

  ghost predicate Words2(m: Block) {
    && Schedule(m, 16) == 0x61626380 && Schedule(m, 17) == 0x000F0000 && Schedule(m, 18) == 0x7DA86405
    && Schedule(m, 19) == 0x600003C6 && Schedule(m, 20) == 0x3E9D7B78 && Schedule(m, 21) == 0x0183FC00
    && Schedule(m, 22) == 0x12DCBFDB && Schedule(m, 23) == 0xE2E2C38E
  }

  ghost predicate Words3(m: Block) {
    && Schedule(m, 24) == 0xC8215C1A && Schedule(m, 25) == 0xB73679A2 && Schedule(m, 26) == 0xE5BC3909
    && Schedule(m, 27) == 0x32663C5B && Schedule(m, 28) == 0x9D209D67 && Schedule(m, 29) == 0xEC8726CB
    && Schedule(m, 30) == 0x702138A4 && Schedule(m, 31) == 0xD3B7973B
  }

  ghost predicate Words4(m: Block) {
    && Schedule(m, 32) == 0x93F5997F && Schedule(m, 33) == 0x3B68BA73 && Schedule(m, 34) == 0xAFF4FFC1
    && Schedule(m, 35) == 0xF10A5C62 && Schedule(m, 36) == 0x0A8B3996 && Schedule(m, 37) == 0x72AF830A
    && Schedule(m, 38) == 0x9409E33E && Schedule(m, 39) == 0x24641522
  }

  ghost predicate Words5(m: Block) {
    && Schedule(m, 40) == 0x9F47BF94 && Schedule(m, 41) == 0xF0A64F5A && Schedule(m, 42) == 0x3E246A79
    && Schedule(m, 43) == 0x27333BA3 && Schedule(m, 44) == 0x0C4763F2 && Schedule(m, 45) == 0x840ABF27
    && Schedule(m, 46) == 0x7A290D5D && Schedule(m, 47) == 0x065C43DA
  }

  ghost predicate Words6(m: Block) {
    && Schedule(m, 48) == 0xFB3E89CB && Schedule(m, 49) == 0xCC7617DB && Schedule(m, 50) == 0xB9E66C34
    && Schedule(m, 51) == 0xA9993667 && Schedule(m, 52) == 0x84BADEDD && Schedule(m, 53) == 0xC21462BC
    && Schedule(m, 54) == 0x1487472C && Schedule(m, 55) == 0xB20F7A99
  }

  ghost predicate Words7(m: Block) {
    && Schedule(m, 56) == 0xEF57B9CD && Schedule(m, 57) == 0xEBE6B238 && Schedule(m, 58) == 0x9FE3095E
    && Schedule(m, 59) == 0x78BC8D4B && Schedule(m, 60) == 0xA43FCF15 && Schedule(m, 61) == 0x668B2FF8
    && Schedule(m, 62) == 0xEEABA2CC && Schedule(m, 63) == 0x12B1EDEB
  }

  lemma FirstWords()
    ensures Words0(Message()) && Words1(Message())
  {
    var m := Message();
    PaddedIs();
    hide Pad;
    assert WordOf(0x61, 0x62, 0x63, 0x80) == 0x61626380 && WordOf(0, 0, 0, 0) == 0 && WordOf(0, 0, 0, 24) == 24;
    hide Message, WordOf;
  }

  lemma MoreWords2(m: Block)
    requires Words0(m) && Words1(m)
    ensures Words2(m)
  {
    OneWord(m, 16, 0x00000000, 0x00000000, 0x00000000, 0x61626380, 0x00000000, 0x00000000, 0x61626380);
    OneWord(m, 17, 0x00000018, 0x00000000, 0x00000000, 0x00000000, 0x000F0000, 0x00000000, 0x000F0000);
    OneWord(m, 18, 0x61626380, 0x00000000, 0x00000000, 0x00000000, 0x7DA86405, 0x00000000, 0x7DA86405);
    OneWord(m, 19, 0x000F0000, 0x00000000, 0x00000000, 0x00000000, 0x600003C6, 0x00000000, 0x600003C6);
    OneWord(m, 20, 0x7DA86405, 0x00000000, 0x00000000, 0x00000000, 0x3E9D7B78, 0x00000000, 0x3E9D7B78);
    OneWord(m, 21, 0x600003C6, 0x00000000, 0x00000000, 0x00000000, 0x0183FC00, 0x00000000, 0x0183FC00);
    OneWord(m, 22, 0x3E9D7B78, 0x00000018, 0x00000000, 0x00000000, 0x12DCBFC3, 0x00000000, 0x12DCBFDB);
    OneWord(m, 23, 0x0183FC00, 0x61626380, 0x00000000, 0x00000000, 0x8180600E, 0x00000000, 0xE2E2C38E);
  }

  lemma MoreWords3(m: Block)
    requires Words1(m) && Words2(m)
    ensures Words3(m)
  {
    OneWord(m, 24, 0x12DCBFDB, 0x000F0000, 0x00000000, 0x00000000, 0xC8125C1A, 0x00000000, 0xC8215C1A);
    OneWord(m, 25, 0xE2E2C38E, 0x7DA86405, 0x00000000, 0x00000000, 0x398E159D, 0x00000000, 0xB73679A2);
    OneWord(m, 26, 0xC8215C1A, 0x600003C6, 0x00000000, 0x00000000, 0x85BC3543, 0x00000000, 0xE5BC3909);
    OneWord(m, 27, 0xB73679A2, 0x3E9D7B78, 0x00000000, 0x00000000, 0xF3C8C0E3, 0x00000000, 0x32663C5B);
    OneWord(m, 28, 0xE5BC3909, 0x0183FC00, 0x00000000, 0x00000000, 0x9B9CA167, 0x00000000, 0x9D209D67);
    OneWord(m, 29, 0x32663C5B, 0x12DCBFDB, 0x00000000, 0x00000000, 0xD9AA66F0, 0x00000000, 0xEC8726CB);
    OneWord(m, 30, 0x9D209D67, 0xE2E2C38E, 0x00000018, 0x00000000, 0x5D387513, 0x30060003, 0x702138A4);
    OneWord(m, 31, 0xEC8726CB, 0xC8215C1A, 0x61626380, 0x00000018, 0x7787AA1A, 0x940E90EF, 0xD3B7973B);
  }

  lemma MoreWords4(m: Block)
    requires Words2(m) && Words3(m)
    ensures Words4(m)
  {
    OneWord(m, 32, 0x702138A4, 0xB73679A2, 0x000F0000, 0x61626380, 0xBB5ABE5A, 0xC001FE03, 0x93F5997F);
    OneWord(m, 33, 0xD3B7973B, 0xE5BC3909, 0x7DA86405, 0x000F0000, 0x394E7E48, 0x1C4F0322, 0x3B68BA73);
    OneWord(m, 34, 0x93F5997F, 0x32663C5B, 0x600003C6, 0x7DA86405, 0x7FB4C6E2, 0x8031987F, 0xAFF4FFC1);
    OneWord(m, 35, 0x3B68BA73, 0x9D209D67, 0x3E9D7B78, 0x600003C6, 0x4A7920F7, 0xA9709A3E, 0xF10A5C62);
    OneWord(m, 36, 0xAFF4FFC1, 0xEC8726CB, 0x0183FC00, 0x3E9D7B78, 0xE0331F3B, 0xFF337818, 0x0A8B3996);
    OneWord(m, 37, 0xF10A5C62, 0x702138A4, 0x12DCBFDB, 0x0183FC00, 0x65816433, 0x9B88EA33, 0x72AF830A);
    OneWord(m, 38, 0x0A8B3996, 0xD3B7973B, 0xE2E2C38E, 0x12DCBFDB, 0xFBFB66DA, 0xB17A254E, 0x9409E33E);
    OneWord(m, 39, 0x72AF830A, 0x93F5997F, 0xC8215C1A, 0xE2E2C38E, 0x31F8DCE2, 0x7B92DB33, 0x24641522);
  }

  lemma MoreWords5(m: Block)
    requires Words3(m) && Words4(m)
    ensures Words5(m)
  {
    OneWord(m, 40, 0x9409E33E, 0x3B68BA73, 0xB73679A2, 0xC8215C1A, 0xCDDD9AFD, 0xCDE00E0A, 0x9F47BF94);
    OneWord(m, 41, 0x24641522, 0xAFF4FFC1, 0xE5BC3909, 0xB73679A2, 0x883C4FBB, 0x013E863C, 0xF0A64F5A);
    OneWord(m, 42, 0x9F47BF94, 0xF10A5C62, 0x32663C5B, 0xE5BC3909, 0x281F0DA4, 0x3F3EC76A, 0x3E246A79);
    OneWord(m, 43, 0xF0A64F5A, 0x0A8B3996, 0x9D209D67, 0x32663C5B, 0xEE7A0FD4, 0xFBC7B5DE, 0x27333BA3);
    OneWord(m, 44, 0x3E246A79, 0x72AF830A, 0xEC8726CB, 0x9D209D67, 0xB87C31CC, 0x43FB11B5, 0x0C4763F2);
    OneWord(m, 45, 0x27333BA3, 0x9409E33E, 0x702138A4, 0xEC8726CB, 0xFAAC3BB1, 0x08CD796D, 0x840ABF27);
    OneWord(m, 46, 0x0C4763F2, 0x24641522, 0xD3B7973B, 0x702138A4, 0x5D845673, 0x881F6924, 0x7A290D5D);
    OneWord(m, 47, 0x840ABF27, 0x9F47BF94, 0x93F5997F, 0xD3B7973B, 0x0856302B, 0x8B06BCE0, 0x065C43DA);
  }

  lemma MoreWords6(m: Block)
    requires Words4(m) && Words5(m)
    ensures Words6(m)
  {
    OneWord(m, 48, 0x7A290D5D, 0xF0A64F5A, 0x3B68BA73, 0x93F5997F, 0xA71B9812, 0xCF8708E0, 0xFB3E89CB);
    OneWord(m, 49, 0x065C43DA, 0x3E246A79, 0xAFF4FFC1, 0x3B68BA73, 0xA997D4F5, 0xA9511DFA, 0xCC7617DB);
    OneWord(m, 50, 0xFB3E89CB, 0x27333BA3, 0xF10A5C62, 0xAFF4FFC1, 0x95E24D5A, 0x4CDBE376, 0xB9E66C34);
    OneWord(m, 51, 0xCC7617DB, 0x0C4763F2, 0x0A8B3996, 0xF10A5C62, 0xC9258230, 0xE321F3E3, 0xA9993667);
    OneWord(m, 52, 0xB9E66C34, 0x840ABF27, 0x72AF830A, 0x0A8B3996, 0xFBB2B254, 0xFA7233CC, 0x84BADEDD);
    OneWord(m, 53, 0xA9993667, 0x7A290D5D, 0x9409E33E, 0x72AF830A, 0xBDD547B2, 0x17668AA3, 0xC21462BC);
    OneWord(m, 54, 0x84BADEDD, 0x065C43DA, 0x24641522, 0x9409E33E, 0x34945C7D, 0x458CC397, 0x1487472C);
    OneWord(m, 55, 0xC21462BC, 0xFB3E89CB, 0x9F47BF94, 0x24641522, 0xBD397C50, 0xD5335F5C, 0xB20F7A99);
  }

  lemma MoreWords7(m: Block)
    requires Words5(m) && Words6(m)
    ensures Words7(m)
  {
    OneWord(m, 56, 0x1487472C, 0xCC7617DB, 0xF0A64F5A, 0x9F47BF94, 0x4B76A902, 0x3823395C, 0xEF57B9CD);
    OneWord(m, 57, 0xB20F7A99, 0xB9E66C34, 0x3E246A79, 0xF0A64F5A, 0x52336C98, 0xEF268A12, 0xEBE6B238);
    OneWord(m, 58, 0xEF57B9CD, 0xA9993667, 0x27333BA3, 0x3E246A79, 0x2BE49FAF, 0x8C40C8CF, 0x9FE3095E);
    OneWord(m, 59, 0xEBE6B238, 0x84BADEDD, 0x0C4763F2, 0x27333BA3, 0x8F619123, 0x3D6CE1A8, 0x78BC8D4B);
    OneWord(m, 60, 0x9FE3095E, 0xC21462BC, 0x840ABF27, 0x0C4763F2, 0xE5A364CF, 0xF040A398, 0xA43FCF15);
    OneWord(m, 61, 0x78BC8D4B, 0x1487472C, 0x7A290D5D, 0x840ABF27, 0xD712FC6A, 0xF6E62D3B, 0x668B2FF8);
    OneWord(m, 62, 0xA43FCF15, 0xB20F7A99, 0x065C43DA, 0x7A290D5D, 0x1E41696B, 0xA431B16B, 0xEEABA2CC);
    OneWord(m, 63, 0x668B2FF8, 0xEF57B9CD, 0xFB3E89CB, 0x065C43DA, 0xF21A9D5F, 0x2AE352E5, 0x12B1EDEB);
  }

  lemma AllWords()
    ensures var m := Message();
      Words0(m) && Words1(m) && Words2(m) && Words3(m) && Words4(m) && Words5(m) && Words6(m) && Words7(m)
  {
    hide Words0, Words1, Words2, Words3, Words4, Words5, Words6, Words7;
    var m := Message();
    FirstWords();
    MoreWords2(m); MoreWords3(m); MoreWords4(m); MoreWords5(m); MoreWords6(m); MoreWords7(m);
  }

  // ---------------------------------------------------------------------------------------
  // The rounds.
  // ---------------------------------------------------------------------------------------

  lemma Constants0()
    ensures K[0] == 0x428A2F98 && K[1] == 0x71374491 && K[2] == 0xB5C0FBCF && K[3] == 0xE9B5DBA5
    ensures K[4] == 0x3956C25B && K[5] == 0x59F111F1 && K[6] == 0x923F82A4 && K[7] == 0xAB1C5ED5
  {
  }

  lemma Constants1()
    ensures K[8] == 0xD807AA98 && K[9] == 0x12835B01 && K[10] == 0x243185BE && K[11] == 0x550C7DC3
    ensures K[12] == 0x72BE5D74 && K[13] == 0x80DEB1FE && K[14] == 0x9BDC06A7 && K[15] == 0xC19BF174
  {
  }

  lemma Constants2()
    ensures K[16] == 0xE49B69C1 && K[17] == 0xEFBE4786 && K[18] == 0x0FC19DC6 && K[19] == 0x240CA1CC
    ensures K[20] == 0x2DE92C6F && K[21] == 0x4A7484AA && K[22] == 0x5CB0A9DC && K[23] == 0x76F988DA
  {
  }

  lemma Constants3()
    ensures K[24] == 0x983E5152 && K[25] == 0xA831C66D && K[26] == 0xB00327C8 && K[27] == 0xBF597FC7
    ensures K[28] == 0xC6E00BF3 && K[29] == 0xD5A79147 && K[30] == 0x06CA6351 && K[31] == 0x14292967
  {
  }

  lemma Constants4()
    ensures K[32] == 0x27B70A85 && K[33] == 0x2E1B2138 && K[34] == 0x4D2C6DFC && K[35] == 0x53380D13
    ensures K[36] == 0x650A7354 && K[37] == 0x766A0ABB && K[38] == 0x81C2C92E && K[39] == 0x92722C85
  {
  }

  lemma Constants5()
    ensures K[40] == 0xA2BFE8A1 && K[41] == 0xA81A664B && K[42] == 0xC24B8B70 && K[43] == 0xC76C51A3
    ensures K[44] == 0xD192E819 && K[45] == 0xD6990624 && K[46] == 0xF40E3585 && K[47] == 0x106AA070
  {
  }

  lemma Constants6()
    ensures K[48] == 0x19A4C116 && K[49] == 0x1E376C08 && K[50] == 0x2748774C && K[51] == 0x34B0BCB5
    ensures K[52] == 0x391C0CB3 && K[53] == 0x4ED8AA4A && K[54] == 0x5B9CCA4F && K[55] == 0x682E6FF3
  {
  }

  lemma Constants7()
    ensures K[56] == 0x748F82EE && K[57] == 0x78A5636F && K[58] == 0x84C87814 && K[59] == 0x8CC70208
    ensures K[60] == 0x90BEFFFA && K[61] == 0xA4506CEB && K[62] == 0xBEF9A3F7 && K[63] == 0xC67178F2
  {
  }

  lemma BigSigmas(e: Word32, a: Word32)
    ensures BigSigma1(e) == Xor3(RotR(6, e), RotR(11, e), RotR(25, e))
    ensures BigSigma0(a) == Xor3(RotR(2, a), RotR(13, a), RotR(22, a))
  {
    hide RotR;
  }

  /** One round on given words: `e6` to `a22` are the rotations it uses, `t1` the standard's first sum. */
  lemma OneRound(v: Vars, m: Block, t: nat, a: Word32, b: Word32, c: Word32, d: Word32, e: Word32, f: Word32,
                 g: Word32, h: Word32, k: Word32, w: Word32, e6: Word32, e11: Word32, e25: Word32,
                 a2: Word32, a13: Word32, a22: Word32, t1: Word32, x: Word32, y: Word32)
    requires t < 64 && Rounds(v, m, t) == Vars(a, b, c, d, e, f, g, h) && K[t] == k && Schedule(m, t) == w
    requires RotR(6, e) == e6 && RotR(11, e) == e11 && RotR(25, e) == e25
    requires RotR(2, a) == a2 && RotR(13, a) == a13 && RotR(22, a) == a22
    requires Add(Add(Add(Add(h, Xor3(e6, e11, e25)), Ch(e, f, g)), k), w) == t1
    requires Add(t1, Add(Xor3(a2, a13, a22), Maj(a, b, c))) == x && Add(d, t1) == y
    ensures Rounds(v, m, t + 1) == Vars(x, a, b, c, y, e, f, g)
  {
    BigSigmas(e, a);
    hide Add, BigSigma0, BigSigma1, Ch, Maj, RotR, Xor3, Schedule;
  }

  lemma Abc256Rounds0(v: Vars, m: Block)
    requires Words0(m)
    requires Rounds(v, m, 0) ==
      Vars(0x6A09E667, 0xBB67AE85, 0x3C6EF372, 0xA54FF53A, 0x510E527F, 0x9B05688C, 0x1F83D9AB, 0x5BE0CD19)
    ensures Rounds(v, m, 8) ==
      Vars(0x85A07B5F, 0xE5030380, 0x2B4209F5, 0x04409A6A, 0x0C657A79, 0x9B27A401, 0x714260AD, 0x43ADA245)
  {
    hide Rounds, Schedule;
    Constants0();
    OneRound(v, m, 0, 0x6A09E667, 0xBB67AE85, 0x3C6EF372, 0xA54FF53A, 0x510E527F, 0x9B05688C, 0x1F83D9AB, 0x5BE0CD19,
             0x428A2F98, 0x61626380, 0xFD443949, 0x4FEA21CA, 0x87293FA8, 0xDA827999, 0x333B504F, 0x27999DA8,
             0x54DA50E8, 0x5D6AEBCD, 0xFA2A4622);
    OneRound(v, m, 1, 0x5D6AEBCD, 0x6A09E667, 0xBB67AE85, 0x3C6EF372, 0xFA2A4622, 0x510E527F, 0x9B05688C, 0x1F83D9AB,
             0x71374491, 0x00000000, 0x8BE8A918, 0xC45F4548, 0x1523117D, 0x575ABAF3, 0x5E6AEB57, 0xABAF3575,
             0x3C5F8617, 0x5A6AD9AD, 0x78CE7989);
    OneRound(v, m, 2, 0x5A6AD9AD, 0x5D6AEBCD, 0x6A09E667, 0xBB67AE85, 0x78CE7989, 0xFA2A4622, 0x510E527F, 0x9B05688C,
             0xB5C0FBCF, 0x00000000, 0x25E339E6, 0x312F19CF, 0x673CC4BC, 0x569AB66B, 0xCD6AD356, 0xAB66B569,
             0x3DC18B66, 0xC8C347A7, 0xF92939EB);
    OneRound(v, m, 3, 0xC8C347A7, 0x5A6AD9AD, 0x5D6AEBCD, 0x6A09E667, 0xF92939EB, 0x78CE7989, 0xFA2A4622, 0x510E527F,
             0xE9B5DBA5, 0x00000000, 0xAFE4A4E7, 0x3D7F2527, 0x949CF5FC, 0xF230D1E9, 0x3D3E461A, 0x0D1E9F23,
             0xBAD621E9, 0xD550F666, 0x24E00850);
    OneRound(v, m, 4, 0xD550F666, 0xC8C347A7, 0x5A6AD9AD, 0x5D6AEBCD, 0x24E00850, 0xF92939EB, 0x78CE7989, 0xFA2A4622,
             0x3956C25B, 0x00000000, 0x40938021, 0x0A049C01, 0x70042812, 0xB5543D99, 0xB336AA87, 0x43D99B55,
             0xE642B678, 0x04409A6A, 0x43ADA245);
    OneRound(v, m, 5, 0x04409A6A, 0xD550F666, 0xC8C347A7, 0x5A6AD9AD, 0x43ADA245, 0x24E00850, 0xF92939EB, 0x78CE7989,
             0x59F111F1, 0x00000000, 0x150EB689, 0x48A875B4, 0xD6D122A1, 0x8110269A, 0xD3502204, 0x0269A811,
             0x16D78700, 0x2B4209F5, 0x714260AD);
    OneRound(v, m, 6, 0x2B4209F5, 0x04409A6A, 0xD550F666, 0xC8C347A7, 0x714260AD, 0x43ADA245, 0x24E00850, 0xF92939EB,
             0x923F82A4, 0x00000000, 0xB5C50982, 0x15AE284C, 0xA13056B8, 0x4AD0827D, 0x4FA95A10, 0x0827D4AD,
             0xD2645C5A, 0xE5030380, 0x9B27A401);
    OneRound(v, m, 7, 0xE5030380, 0x2B4209F5, 0x04409A6A, 0xD550F666, 0x9B27A401, 0x714260AD, 0x43ADA245, 0x24E00850,
             0xAB1C5ED5, 0x00000000, 0x066C9E90, 0x803364F4, 0x93D200CD, 0x3940C0E0, 0x1C072818, 0x0C0E0394,
             0x37148413, 0x85A07B5F, 0x0C657A79);
  }

  lemma Abc256Rounds1(v: Vars, m: Block)
    requires Words1(m)
    requires Rounds(v, m, 8) ==
      Vars(0x85A07B5F, 0xE5030380, 0x2B4209F5, 0x04409A6A, 0x0C657A79, 0x9B27A401, 0x714260AD, 0x43ADA245)
    ensures Rounds(v, m, 16) ==
      Vars(0xB0FA238E, 0xC0645FDE, 0xD932EB16, 0x87912990, 0x07590DCD, 0x0B92F20C, 0x745A48DE, 0x1E578218)
  {
    hide Rounds, Schedule;
    Constants1();
    OneRound(v, m, 8, 0x85A07B5F, 0xE5030380, 0x2B4209F5, 0x04409A6A, 0x0C657A79, 0x9B27A401, 0x714260AD, 0x43ADA245,
             0xD807AA98, 0x00000000, 0xE43195E9, 0x4F218CAF, 0x32BD3C86, 0xE1681ED7, 0xDAFC2D03, 0x81ED7E16,
             0x2E899322, 0x8E04ECB9, 0x32CA2D8C);
    OneRound(v, m, 9, 0x8E04ECB9, 0x85A07B5F, 0xE5030380, 0x2B4209F5, 0x32CA2D8C, 0x0C657A79, 0x9B27A401, 0x714260AD,
             0x12835B01, 0x00000000, 0x30CB28B6, 0xB1865945, 0x6516C619, 0x63813B2E, 0x65CC7027, 0x13B2E638,
             0xF1871BA1, 0x8C87346B, 0x1CC92596);
    OneRound(v, m, 10, 0x8C87346B, 0x8E04ECB9, 0x85A07B5F, 0xE5030380, 0x1CC92596, 0x32CA2D8C, 0x0C657A79, 0x9B27A401,
             0x243185BE, 0x00000000, 0x58732496, 0xB2C39924, 0x6492CB0E, 0xE321CD1A, 0xA35C6439, 0x1CD1AE32,
             0x5E682068, 0x4798A3F4, 0x436B23E8);
    OneRound(v, m, 11, 0x4798A3F4, 0x8C87346B, 0x8E04ECB9, 0x85A07B5F, 0x436B23E8, 0x1CC92596, 0x32CA2D8C, 0x0C657A79,
             0x550C7DC3, 0x00000000, 0xA10DAC8F, 0x7D086D64, 0xB591F421, 0x11E628FD, 0x1FA23CC5, 0x628FD11E,
             0xFBCF5B8A, 0xF71FC5A9, 0x816FD6E9);
    OneRound(v, m, 12, 0xF71FC5A9, 0x4798A3F4, 0x8C87346B, 0x8E04ECB9, 0x816FD6E9, 0x436B23E8, 0x1CC92596, 0x32CA2D8C,
             0x72BE5D74, 0x00000000, 0xA605BF5B, 0xDD302DFA, 0xB7EB74C0, 0x7DC7F16A, 0x2D4FB8FE, 0x7F16A7DC,
             0x9052955F, 0x87912990, 0x1E578218);
    OneRound(v, m, 13, 0x87912990, 0xF71FC5A9, 0x4798A3F4, 0x8C87346B, 0x1E578218, 0x816FD6E9, 0x436B23E8, 0x1CC92596,
             0x80DEB1FE, 0x00000000, 0x60795E08, 0x4303CAF0, 0x2BC10C0F, 0x21E44A64, 0x4C843C89, 0x44A6421E,
             0xE7D31473, 0xD932EB16, 0x745A48DE);
    OneRound(v, m, 14, 0xD932EB16, 0x87912990, 0xF71FC5A9, 0x4798A3F4, 0x745A48DE, 0x1E578218, 0x816FD6E9, 0x436B23E8,
             0x9BDC06A7, 0x00000000, 0x79D16923, 0x1BCE8B49, 0x2D246F3A, 0xB64CBAC5, 0x58B6C997, 0xCBAC5B64,
             0xC3FA4E18, 0xC0645FDE, 0x0B92F20C);
    OneRound(v, m, 15, 0xC0645FDE, 0xD932EB16, 0x87912990, 0xF71FC5A9, 0x0B92F20C, 0x745A48DE, 0x1E578218, 0x816FD6E9,
             0xC19BF174, 0x00000018, 0x302E4BC8, 0x4181725E, 0xC9790605, 0xB01917F7, 0xFEF60322, 0x917F7B01,
             0x10394824, 0xB0FA238E, 0x07590DCD);
  }

  lemma Abc256Rounds2(v: Vars, m: Block)
    requires Words2(m)
    requires Rounds(v, m, 16) ==
      Vars(0xB0FA238E, 0xC0645FDE, 0xD932EB16, 0x87912990, 0x07590DCD, 0x0B92F20C, 0x745A48DE, 0x1E578218)
    ensures Rounds(v, m, 24) ==
      Vars(0xC5D53D8D, 0xA7A3623F, 0xC2606D6D, 0x9DC68B63, 0xAA47C347, 0x49F5114A, 0xE1257970, 0x8ADA8930)
  {
    hide Rounds, Schedule;
    Constants2();
    OneRound(v, m, 16, 0xB0FA238E, 0xC0645FDE, 0xD932EB16, 0x87912990, 0x07590DCD, 0x0B92F20C, 0x745A48DE, 0x1E578218,
             0xE49B69C1, 0x61626380, 0x341D6437, 0xB9A0EB21, 0xAC86E683, 0xAC3E88E3, 0x1C7587D1, 0xE88E3AC3,
             0xF8A2F90C, 0x21DA9A9B, 0x8034229C);
    OneRound(v, m, 17, 0x21DA9A9B, 0xB0FA238E, 0xC0645FDE, 0xD932EB16, 0x8034229C, 0x07590DCD, 0x0B92F20C, 0x745A48DE,
             0xEFBE4786, 0x000F0000, 0x7200D08A, 0x53900684, 0x1A114E40, 0xC876A6A6, 0xD4D90ED4, 0x6A6A6C87,
             0xAB3BF93E, 0xC2FBD9D1, 0x846EE454);
    OneRound(v, m, 18, 0xC2FBD9D1, 0x21DA9A9B, 0xB0FA238E, 0xC0645FDE, 0x846EE454, 0x8034229C, 0x07590DCD, 0x0B92F20C,
             0x0FC19DC6, 0x7DA86405, 0x5211BB91, 0x8A908DDC, 0x37722A42, 0x70BEF674, 0xCE8E17DE, 0xEF67470B,
             0x0C253983, 0xFE777BBF, 0xCC899961);
    OneRound(v, m, 19, 0xFE777BBF, 0xC2FBD9D1, 0x21DA9A9B, 0xB0FA238E, 0xCC899961, 0x846EE454, 0x8034229C, 0x07590DCD,
             0x240CA1CC, 0x600003C6, 0x87322665, 0x2C399133, 0x44CCB0E6, 0xFF9DDEEF, 0xDDFFF3BB, 0xDDEEFFF9,
             0xFF695DEB, 0xE1F20C33, 0xB0638179);
    OneRound(v, m, 20, 0xE1F20C33, 0xFE777BBF, 0xC2FBD9D1, 0x21DA9A9B, 0xB0638179, 0xCC899961, 0x846EE454, 0x8034229C,
             0x2DE92C6F, 0x3E9D7B78, 0xE6C18E05, 0x2F360C70, 0x31C0BCD8, 0xF87C830C, 0x619F0F90, 0xC830CF87,
             0x68FFEE95, 0x9DC68B63, 0x8ADA8930);
    OneRound(v, m, 21, 0x9DC68B63, 0xE1F20C33, 0xFE777BBF, 0xC2FBD9D1, 0x8ADA8930, 0xB0638179, 0xCC899961, 0x846EE454,
             0x4A7484AA, 0x0183FC00, 0xC22B6A24, 0x26115B51, 0x6D449845, 0xE771A2D8, 0x5B1CEE34, 0x1A2D8E77,
             0x1E299F9F, 0xC2606D6D, 0xE1257970);
    OneRound(v, m, 22, 0xC2606D6D, 0x9DC68B63, 0xE1F20C33, 0xFE777BBF, 0xE1257970, 0x8ADA8930, 0xB0638179, 0xCC899961,
             0x5CB0A9DC, 0x12DCBFDB, 0xC38495E5, 0x2E1C24AF, 0x92BCB870, 0x70981B5B, 0x6B6E1303, 0x81B5B709,
             0x4B7D958B, 0xA7A3623F, 0x49F5114A);
    OneRound(v, m, 23, 0xA7A3623F, 0xC2606D6D, 0x9DC68B63, 0xE1F20C33, 0x49F5114A, 0xE1257970, 0x8ADA8930, 0xB0638179,
             0x76F988DA, 0xE2E2C38E, 0x2927D445, 0x29493EA2, 0xFA88A524, 0xE9E8D88F, 0x11FD3D1B, 0x8D88FE9E,
             0xC855B714, 0xC5D53D8D, 0xAA47C347);
  }

  lemma Abc256Rounds3(v: Vars, m: Block)
    requires Words3(m)
    requires Rounds(v, m, 24) ==
      Vars(0xC5D53D8D, 0xA7A3623F, 0xC2606D6D, 0x9DC68B63, 0xAA47C347, 0x49F5114A, 0xE1257970, 0x8ADA8930)
    ensures Rounds(v, m, 32) ==
      Vars(0x73B33BF5, 0xEA992A22, 0xA0060B30, 0x363482C9, 0xBA591112, 0x0109AB3A, 0xADE79437, 0x6112A3B7)
  {
    hide Rounds, Schedule;
    Constants3();
    OneRound(v, m, 24, 0xC5D53D8D, 0xA7A3623F, 0xC2606D6D, 0x9DC68B63, 0xAA47C347, 0x49F5114A, 0xE1257970, 0x8ADA8930,
             0x983E5152, 0xC8215C1A, 0x1EA91F0D, 0x68F548F8, 0x23E1A3D5, 0x71754F63, 0xEC6E2EA9, 0x54F63717,
             0x8A5D642E, 0x1C2C2838, 0x2823EF91);
    OneRound(v, m, 25, 0x1C2C2838, 0xC5D53D8D, 0xA7A3623F, 0xC2606D6D, 0x2823EF91, 0xAA47C347, 0x49F5114A, 0xE1257970,
             0xA831C66D, 0xB73679A2, 0x44A08FBE, 0xF225047D, 0x11F7C894, 0x070B0A0E, 0x41C0E161, 0xB0A0E070,
             0x51D7D021, 0xCDE8037D, 0x14383D8E);
    OneRound(v, m, 26, 0xCDE8037D, 0x1C2C2838, 0xC5D53D8D, 0xA7A3623F, 0x14383D8E, 0x2823EF91, 0xAA47C347, 0x49F5114A,
             0xB00327C8, 0xE5BC3909, 0x3850E0F6, 0xB1C28707, 0x1C1EC70A, 0x737A00DF, 0x1BEE6F40, 0xA00DF737,
             0x1FA902D7, 0xB62EC4BC, 0xC74C6516);
    OneRound(v, m, 27, 0xB62EC4BC, 0xCDE8037D, 0x1C2C2838, 0xC5D53D8D, 0xC74C6516, 0x14383D8E, 0x2823EF91, 0xAA47C347,
             0xBF597FC7, 0x32663C5B, 0x5B1D3194, 0xA2D8E98C, 0xA6328B63, 0x2D8BB12F, 0x25E5B176, 0xBB12F2D8,
             0x282A826B, 0x77D37528, 0xEDFFBFF8);
    OneRound(v, m, 28, 0x77D37528, 0xB62EC4BC, 0xCDE8037D, 0x1C2C2838, 0xEDFFBFF8, 0xC74C6516, 0x14383D8E, 0x2823EF91,
             0xC6E00BF3, 0x9D209D67, 0xE3B7FEFF, 0xFF1DBFF7, 0xFFDFFC76, 0x1DF4DD4A, 0xA943BE9B, 0x4DD4A1DF,
             0x44E67B7F, 0x363482C9, 0x6112A3B7);
    OneRound(v, m, 29, 0x363482C9, 0x77D37528, 0xB62EC4BC, 0xCDE8037D, 0x6112A3B7, 0xEDFFBFF8, 0xC74C6516, 0x14383D8E,
             0xD5A79147, 0xEC8726CB, 0xDD844A8E, 0x76EC2254, 0x8951DBB0, 0x4D8D20B2, 0x1649B1A4, 0xD20B24D8,
             0xDFFF90BA, 0xA0060B30, 0xADE79437);
    OneRound(v, m, 30, 0xA0060B30, 0x363482C9, 0x77D37528, 0xB62EC4BC, 0xADE79437, 0x6112A3B7, 0xEDFFBFF8, 0xC74C6516,
             0x06CA6351, 0x702138A4, 0xDEB79E50, 0x86F5BCF2, 0xF3CA1BD6, 0x280182CC, 0x59850030, 0x182CC280,
             0x4ADAE67E, 0xEA992A22, 0x0109AB3A);
    OneRound(v, m, 31, 0xEA992A22, 0xA0060B30, 0x363482C9, 0x77D37528, 0x0109AB3A, 0xADE79437, 0x6112A3B7, 0xEDFFBFF8,
             0x14292967, 0xD3B7973B, 0xE80426AC, 0x67402135, 0x84D59D00, 0xBAA64A88, 0x511754C9, 0x64A88BAA,
             0x42859BEA, 0x73B33BF5, 0xBA591112);
  }

  lemma Abc256Rounds4(v: Vars, m: Block)
    requires Words4(m)
    requires Rounds(v, m, 32) ==
      Vars(0x73B33BF5, 0xEA992A22, 0xA0060B30, 0x363482C9, 0xBA591112, 0x0109AB3A, 0xADE79437, 0x6112A3B7)
    ensures Rounds(v, m, 40) ==
      Vars(0x79EA687A, 0x6DC57A8A, 0x34DF1604, 0x41A65CB1, 0x1EFBC0A0, 0xF0781BC8, 0xA507A53D, 0x0772A26B)
  {
    hide Rounds, Schedule;
    Constants4();
    OneRound(v, m, 32, 0x73B33BF5, 0xEA992A22, 0xA0060B30, 0x363482C9, 0xBA591112, 0x0109AB3A, 0xADE79437, 0x6112A3B7,
             0x27B70A85, 0x93F5997F, 0x4AE96444, 0x22574B22, 0x2C88895D, 0x5CECCEFD, 0xDFAB9D99, 0xCCEFD5CE,
             0x66A5732D, 0x98E12507, 0x9CD9F5F6);
    OneRound(v, m, 33, 0x98E12507, 0x73B33BF5, 0xEA992A22, 0xA0060B30, 0x9CD9F5F6, 0xBA591112, 0x0109AB3A, 0xADE79437,
             0x2E1B2138, 0x3B68BA73, 0xDA7367D7, 0xBED39B3E, 0x6CFAFB4E, 0xE6384941, 0x283CC709, 0x84941E63,
             0xB91E92A3, 0xFE604DF5, 0x59249DD3);
    OneRound(v, m, 34, 0xFE604DF5, 0x98E12507, 0x73B33BF5, 0xEA992A22, 0x59249DD3, 0x9CD9F5F6, 0xBA591112, 0x0109AB3A,
             0x4D2C6DFC, 0xAFF4FFC1, 0x4D649277, 0xBA6B2493, 0x924EE9AC, 0x7F98137D, 0x6FAFF302, 0x8137D7F9,
             0x1DC60E11, 0xA9A7738C, 0x085F3833);
    OneRound(v, m, 35, 0xA9A7738C, 0xFE604DF5, 0x98E12507, 0x73B33BF5, 0x085F3833, 0x59249DD3, 0x9CD9F5F6, 0xBA591112,
             0x53380D13, 0xF10A5C62, 0xCC217CE0, 0x06610BE7, 0x2F9C1984, 0x2A69DCE3, 0x9C654D3B, 0x9DCE32A6,
             0x80FCC6E1, 0x65A0CFE4, 0xF4B002D6);
    OneRound(v, m, 36, 0x65A0CFE4, 0xA9A7738C, 0xFE604DF5, 0x98E12507, 0xF4B002D6, 0x085F3833, 0x59249DD3, 0x9CD9F5F6,
             0x650A7354, 0x0A8B3996, 0x5BD2C00B, 0x5ADE9600, 0x58016B7A, 0x196833F9, 0x7F232D06, 0x833F9196,
             0x6E917D64, 0x41A65CB1, 0x0772A26B);
    OneRound(v, m, 37, 0x41A65CB1, 0x65A0CFE4, 0xA9A7738C, 0xFE604DF5, 0x0772A26B, 0xF4B002D6, 0x085F3833, 0x59249DD3,
             0x766A0ABB, 0x72AF830A, 0xAC1DCA89, 0x4D60EE54, 0xB9513583, 0x5069972C, 0xE58A0D32, 0x9972C506,
             0xA6A75748, 0x34DF1604, 0xA507A53D);
    OneRound(v, m, 38, 0x34DF1604, 0x41A65CB1, 0x65A0CFE4, 0xA9A7738C, 0xA507A53D, 0x0772A26B, 0xF4B002D6, 0x085F3833,
             0x81C2C92E, 0x9409E33E, 0xF6941E94, 0xA7B4A0F4, 0x83D29ED2, 0x0D37C581, 0xB021A6F8, 0x7C5810D3,
             0x46D0A83C, 0x6DC57A8A, 0xF0781BC8);
    OneRound(v, m, 39, 0x6DC57A8A, 0x34DF1604, 0x41A65CB1, 0x65A0CFE4, 0xF0781BC8, 0xA507A53D, 0x0772A26B, 0xF4B002D6,
             0x92722C85, 0x24641522, 0x23C1E06F, 0x791E0F03, 0x3C0DE478, 0x9B715EA2, 0xD4536E2B, 0x15EA29B7,
             0xB95AF0BC, 0x79EA687A, 0x1EFBC0A0);
  }

  lemma Abc256Rounds5(v: Vars, m: Block)
    requires Words5(m)
    requires Rounds(v, m, 40) ==
      Vars(0x79EA687A, 0x6DC57A8A, 0x34DF1604, 0x41A65CB1, 0x1EFBC0A0, 0xF0781BC8, 0xA507A53D, 0x0772A26B)
    ensures Rounds(v, m, 48) ==
      Vars(0x4172328D, 0xA14C14B0, 0x72AB4B91, 0x26628815, 0xFECF0BC6, 0xD57B94A9, 0xB7755DA1, 0xA80F11F0)
  {
    hide Rounds, Schedule;
    Constants5();
    OneRound(v, m, 40, 0x79EA687A, 0x6DC57A8A, 0x34DF1604, 0x41A65CB1, 0x1EFBC0A0, 0xF0781BC8, 0xA507A53D, 0x0772A26B,
             0xA2BFE8A1, 0x9F47BF94, 0x807BEF02, 0x1403DF78, 0x7DE0500F, 0x9E7A9A1E, 0x43D3CF53, 0xA9A1E9E7,
             0xE48ED0B2, 0xD6670766, 0x26352D63);
    OneRound(v, m, 41, 0xD6670766, 0x79EA687A, 0x6DC57A8A, 0x34DF1604, 0x26352D63, 0x1EFBC0A0, 0xF0781BC8, 0xA507A53D,
             0xA81A664B, 0xF0A64F5A, 0x8C98D4B5, 0xAC64C6A5, 0x1A96B193, 0xB599C1D9, 0x3B36B338, 0x9C1D9B59,
             0x4EAC110D, 0xDF46652F, 0x838B2711);
    OneRound(v, m, 42, 0xDF46652F, 0xD6670766, 0x79EA687A, 0x6DC57A8A, 0x838B2711, 0x26352D63, 0x1EFBC0A0, 0xF0781BC8,
             0xC24B8B70, 0x3E246A79, 0x460E2C9C, 0xE2307164, 0xC59388C1, 0xF7D1994B, 0x297EFA33, 0x1994BF7D,
             0x7107CC8B, 0x17AA0DFE, 0xDECD4715);
    OneRound(v, m, 43, 0x17AA0DFE, 0xDF46652F, 0xD6670766, 0x79EA687A, 0xDECD4715, 0x838B2711, 0x26352D63, 0x1EFBC0A0,
             0xC76C51A3, 0x27333BA3, 0x577B351C, 0xE2BBD9A8, 0x66A38AEF, 0x85EA837F, 0x6FF0BD50, 0xA837F85E,
             0x83B7E3B4, 0x9D4BAF93, 0xFDA24C2E);
    OneRound(v, m, 44, 0x9D4BAF93, 0x17AA0DFE, 0xDF46652F, 0xD6670766, 0xFDA24C2E, 0xDECD4715, 0x838B2711, 0x26352D63,
             0xD192E819, 0x0C4763F2, 0xBBF68930, 0x85DFB449, 0xD126177E, 0xE752EBE4, 0x7C9CEA5D, 0x2EBE4E75,
             0xD1A80A8A, 0x26628815, 0xA80F11F0);
    OneRound(v, m, 45, 0x26628815, 0x9D4BAF93, 0x17AA0DFE, 0xDF46652F, 0xA80F11F0, 0xFDA24C2E, 0xDECD4715, 0x838B2711,
             0xD6990624, 0x840ABF27, 0xC2A03C47, 0x3E1501E2, 0x0788F854, 0x4998A205, 0x40A93314, 0x8A205499,
             0xD82EF872, 0x72AB4B91, 0xB7755DA1);
    OneRound(v, m, 46, 0x72AB4B91, 0x26628815, 0x9D4BAF93, 0x17AA0DFE, 0xB7755DA1, 0xA80F11F0, 0xFDA24C2E, 0xDECD4715,
             0xF40E3585, 0x7A290D5D, 0x86DDD576, 0xB436EEAB, 0xBAAED0DB, 0x5CAAD2E4, 0x5C8B955A, 0xAD2E45CA,
             0xBDD186AB, 0xA14C14B0, 0xD57B94A9);
    OneRound(v, m, 47, 0xA14C14B0, 0x72AB4B91, 0x26628815, 0x9D4BAF93, 0xD57B94A9, 0xB7755DA1, 0xA80F11F0, 0xFDA24C2E,
             0x106AA070, 0x065C43DA, 0xA755EE52, 0x953AAF72, 0xBDCA54EA, 0x2853052C, 0xA5850A60, 0x3052C285,
             0x61835C33, 0x4172328D, 0xFECF0BC6);
  }

  lemma Abc256Rounds6(v: Vars, m: Block)
    requires Words6(m)
    requires Rounds(v, m, 48) ==
      Vars(0x4172328D, 0xA14C14B0, 0x72AB4B91, 0x26628815, 0xFECF0BC6, 0xD57B94A9, 0xB7755DA1, 0xA80F11F0)
    ensures Rounds(v, m, 56) ==
      Vars(0x38CC9913, 0x3EC45CDB, 0xF5702FDB, 0x101FD28F, 0x54CB266B, 0xE50E1B4F, 0x9F4787C3, 0x529E7D00)
  {
    hide Rounds, Schedule;
    Constants6();
    OneRound(v, m, 48, 0x4172328D, 0xA14C14B0, 0x72AB4B91, 0x26628815, 0xFECF0BC6, 0xD57B94A9, 0xB7755DA1, 0xA80F11F0,
             0x19A4C116, 0xFB3E89CB, 0x1BFB3C2F, 0x78DFD9E1, 0x6785E37F, 0x505C8CA3, 0x946A0B91, 0xC8CA3505,
             0x970EB823, 0x05757CEB, 0xBD714038);
    OneRound(v, m, 49, 0x05757CEB, 0x4172328D, 0xA14C14B0, 0x72AB4B91, 0xBD714038, 0xFECF0BC6, 0xD57B94A9, 0xB7755DA1,
             0x1E376C08, 0xCC7617DB, 0xE2F5C500, 0x0717AE28, 0xB8A01C5E, 0xC15D5F3A, 0xE7582BAB, 0xD5F3AC15,
             0xFBB0ED7B, 0xF11BFAA8, 0x6E5C390C);
    OneRound(v, m, 50, 0xF11BFAA8, 0x05757CEB, 0x4172328D, 0xA14C14B0, 0x6E5C390C, 0xBD714038, 0xFECF0BC6, 0xD57B94A9,
             0x2748774C, 0xB9E66C34, 0x31B970E4, 0x218DCB87, 0x2E1C8637, 0x3C46FEAA, 0xD54788DF, 0x6FEAA3C4,
             0xB1A5B847, 0x7A0508A1, 0x52F1CCF7);
    OneRound(v, m, 51, 0x7A0508A1, 0xF11BFAA8, 0x05757CEB, 0x4172328D, 0x52F1CCF7, 0x6E5C390C, 0xBD714038, 0xFECF0BC6,
             0x34B0BCB5, 0xA9993667, 0xDD4BC733, 0x9EEA5E39, 0x78E67BA9, 0x5E814228, 0x450BD028, 0x142285E8,
             0x07B0E991, 0x886E7A22, 0x49231C1E);
    OneRound(v, m, 52, 0x886E7A22, 0x7A0508A1, 0xF11BFAA8, 0x05757CEB, 0x49231C1E, 0x52F1CCF7, 0x6E5C390C, 0xBD714038,
             0x391C0CB3, 0x84BADEDD, 0x79248C70, 0x83C92463, 0x918E0F24, 0xA21B9E88, 0xD1144373, 0xB9E88A21,
             0x4D290015, 0x101FD28F, 0x529E7D00);
    OneRound(v, m, 53, 0x101FD28F, 0x886E7A22, 0x7A0508A1, 0xF11BFAA8, 0x529E7D00, 0x49231C1E, 0x52F1CCF7, 0x6E5C390C,
             0x4ED8AA4A, 0xC21462BC, 0x014A79F4, 0xA00A53CF, 0x4F3E8029, 0xC407F4A3, 0x947880FE, 0x7F4A3C40,
             0xAE2B8D1B, 0xF5702FDB, 0x9F4787C3);
    OneRound(v, m, 54, 0xF5702FDB, 0x101FD28F, 0x886E7A22, 0x7A0508A1, 0x9F4787C3, 0x529E7D00, 0x49231C1E, 0x52F1CCF7,
             0x5B9CCA4F, 0x1487472C, 0x0E7D1E1F, 0xF873E8F0, 0xA3C3E1CF, 0xFD5C0BF6, 0x7EDFAB81, 0xC0BF6FD5,
             0x6B0912AE, 0x3EC45CDB, 0xE50E1B4F);
    OneRound(v, m, 55, 0x3EC45CDB, 0xF5702FDB, 0x101FD28F, 0x886E7A22, 0xE50E1B4F, 0x9F4787C3, 0x529E7D00, 0x49231C1E,
             0x682E6FF3, 0xB20F7A99, 0x3F94386D, 0x69FCA1C3, 0x870DA7F2, 0xCFB11736, 0xE6D9F622, 0x11736CFB,
             0xCC5CAC49, 0x38CC9913, 0x54CB266B);
  }

  lemma Abc256Rounds7(v: Vars, m: Block)
    requires Words7(m)
    requires Rounds(v, m, 56) ==
      Vars(0x38CC9913, 0x3EC45CDB, 0xF5702FDB, 0x101FD28F, 0x54CB266B, 0xE50E1B4F, 0x9F4787C3, 0x529E7D00)
    ensures Rounds(v, m, 64) ==
      Vars(0x506E3058, 0xD39A2165, 0x04D24D6C, 0xB85E2CE9, 0x5EF50F24, 0xFB121210, 0x948D25B6, 0x961F4894)
  {
    hide Rounds, Schedule;
    Constants7();
    OneRound(v, m, 56, 0x38CC9913, 0x3EC45CDB, 0xF5702FDB, 0x101FD28F, 0x54CB266B, 0xE50E1B4F, 0x9F4787C3, 0x529E7D00,
             0x748F82EE, 0xEF57B9CD, 0xAD532C99, 0xCD6A9964, 0x659335AA, 0xCE332644, 0xC899C664, 0x32644CE3,
             0x8B3EBDDD, 0xFCD1887B, 0x9B5E906C);
    OneRound(v, m, 57, 0xFCD1887B, 0x38CC9913, 0x3EC45CDB, 0xF5702FDB, 0x9B5E906C, 0x54CB266B, 0xE50E1B4F, 0x9F4787C3,
             0x78A5636F, 0xEBE6B238, 0xB26D7A41, 0x0D936BD2, 0xAF48364D, 0xFF34621E, 0x43DFE68C, 0x4621EFF3,
             0x88D3D0B3, 0xC062D46F, 0x7E44008E);
    OneRound(v, m, 58, 0xC062D46F, 0xFCD1887B, 0x38CC9913, 0x3EC45CDB, 0x7E44008E, 0x9B5E906C, 0x54CB266B, 0xE50E1B4F,
             0x84C87814, 0x9FE3095E, 0x39F91002, 0x11CFC880, 0x2200473F, 0xF018B51B, 0xA37E0316, 0x8B51BF01,
             0x2EBF62EB, 0xFFB70472, 0x6D83BFC6);
    OneRound(v, m, 59, 0xFFB70472, 0xC062D46F, 0xFCD1887B, 0x38CC9913, 0x6D83BFC6, 0x7E44008E, 0x9B5E906C, 0x54CB266B,
             0x8CC70208, 0x78BC8D4B, 0x19B60EFF, 0xF8CDB077, 0xC1DFE336, 0xBFEDC11C, 0x2397FDB8, 0xDC11CBFE,
             0x794F142A, 0xB6AE8FFF, 0xB21BAD3D);
    OneRound(v, m, 60, 0xB6AE8FFF, 0xFFB70472, 0xC062D46F, 0xFCD1887B, 0xB21BAD3D, 0x6D83BFC6, 0x7E44008E, 0x9B5E906C,
             0x90BEFFFA, 0xA43FCF15, 0xF6C86EB4, 0xA7B64375, 0x0DD69ED9, 0xEDABA3FF, 0x7FFDB574, 0xBA3FFEDA,
             0x994DC019, 0xB85E2CE9, 0x961F4894);
    OneRound(v, m, 61, 0xB85E2CE9, 0xB6AE8FFF, 0xFFB70472, 0xC062D46F, 0x961F4894, 0xB21BAD3D, 0x6D83BFC6, 0x7E44008E,
             0xA4506CEB, 0x668B2FF8, 0x52587D22, 0x1292C3E9, 0x0FA44A4B, 0x6E178B3A, 0x674DC2F1, 0x78B3A6E1,
             0xD42A5147, 0x04D24D6C, 0x948D25B6);
    OneRound(v, m, 62, 0x04D24D6C, 0xB85E2CE9, 0xB6AE8FFF, 0xFFB70472, 0x948D25B6, 0x961F4894, 0xB21BAD3D, 0x6D83BFC6,
             0xBEF9A3F7, 0xEEABA2CC, 0xDA523496, 0xB6D291A4, 0x4692DB4A, 0x0134935B, 0x6B602692, 0x4935B013,
             0xFB5B0D9E, 0xD39A2165, 0xFB121210);
    OneRound(v, m, 63, 0xD39A2165, 0x04D24D6C, 0xB85E2CE9, 0xB6AE8FFF, 0xFB121210, 0x948D25B6, 0x961F4894, 0xB21BAD3D,
             0xC67178F2, 0x12B1EDEB, 0x43EC4848, 0x421F6242, 0x8909087D, 0x74E68859, 0x0B2E9CD1, 0x6885974E,
             0xA8467F25, 0x506E3058, 0x5EF50F24);
  }

  lemma Abc224Rounds0(v: Vars, m: Block)
    requires Words0(m)
    requires Rounds(v, m, 0) ==
      Vars(0xC1059ED8, 0x367CD507, 0x3070DD17, 0xF70E5939, 0xFFC00B31, 0x68581511, 0x64F98FA7, 0xBEFA4FA4)
    ensures Rounds(v, m, 8) ==
      Vars(0xF09D116D, 0x0B6B9023, 0xB2CA3A91, 0x08A0DC0C, 0x7A84120D, 0xA2E49147, 0x898DC7BB, 0x05B557DB)
  {
    hide Rounds, Schedule;
    Constants0();
    OneRound(v, m, 0, 0xC1059ED8, 0x367CD507, 0x3070DD17, 0xF70E5939, 0xFFC00B31, 0x68581511, 0x64F98FA7, 0xBEFA4FA4,
             0x428A2F98, 0x61626380, 0xC7FF002C, 0x663FF801, 0xE00598FF, 0x304167B6, 0xF6C6082C, 0x167B6304,
             0x0D25C925, 0x0E96B2DA, 0x0434225E);
    OneRound(v, m, 1, 0x0E96B2DA, 0xC1059ED8, 0x367CD507, 0x3070DD17, 0x0434225E, 0xFFC00B31, 0x68581511, 0x64F98FA7,
             0x71374491, 0x00000000, 0x7810D089, 0x4BC08684, 0x1A112F02, 0x83A5ACB6, 0x96D074B5, 0x5ACB683A,
             0x6C3A6458, 0xC20DAB6B, 0x9CAB416F);
    OneRound(v, m, 2, 0xC20DAB6B, 0x0E96B2DA, 0xC1059ED8, 0x367CD507, 0x9CAB416F, 0x0434225E, 0xFFC00B31, 0x68581511,
             0xB5C0FBCF, 0x00000000, 0xBE72AD05, 0x2DF39568, 0x55A0B7CE, 0xF0836ADA, 0x5B5E106D, 0x36ADAF08,
             0x4B9AAAE1, 0xAB113B7A, 0x82177FE8);
    OneRound(v, m, 3, 0xAB113B7A, 0xC20DAB6B, 0x0E96B2DA, 0xC1059ED8, 0x82177FE8, 0x9CAB416F, 0x0434225E, 0xFFC00B31,
             0xE9B5DBA5, 0x00000000, 0xA2085DFF, 0xFD1042EF, 0x0BBFF441, 0xAAC44EDE, 0xDBD55889, 0x44EDEAAC,
             0xC24113A5, 0x8253CC1A, 0x8346B27D);
    OneRound(v, m, 4, 0x8253CC1A, 0xAB113B7A, 0xC20DAB6B, 0x0E96B2DA, 0x8346B27D, 0x82177FE8, 0x9CAB416F, 0x0434225E,
             0x3956C25B, 0x00000000, 0xF60D1AC9, 0x4FB068D6, 0xA3593EC1, 0xA094F306, 0x60D4129E, 0x4F306A09,
             0xF71EA501, 0x08A0DC0C, 0x05B557DB);
    OneRound(v, m, 5, 0x08A0DC0C, 0x8253CC1A, 0xAB113B7A, 0xC20DAB6B, 0x05B557DB, 0x8346B27D, 0x82177FE8, 0x9CAB416F,
             0x59F111F1, 0x00000000, 0x6C16D55F, 0xFB60B6AA, 0xDAABED82, 0x02283703, 0xE0604506, 0x83703022,
             0xC7801C50, 0xB2CA3A91, 0x898DC7BB);
    OneRound(v, m, 6, 0xB2CA3A91, 0x08A0DC0C, 0x8253CC1A, 0xAB113B7A, 0x898DC7BB, 0x05B557DB, 0x8346B27D, 0x82177FE8,
             0x923F82A4, 0x00000000, 0xEE26371E, 0xF77131B8, 0xC6E3DDC4, 0x6CB28EA4, 0xD48D9651, 0x28EA46CB,
             0xF7D355CD, 0x0B6B9023, 0xA2E49147);
    OneRound(v, m, 7, 0x0B6B9023, 0xB2CA3A91, 0x08A0DC0C, 0x8253CC1A, 0xA2E49147, 0x898DC7BB, 0x05B557DB, 0x8346B27D,
             0xAB1C5ED5, 0x00000000, 0x1E8B9245, 0x28F45C92, 0x7248A3D1, 0xC2DAE408, 0x81185B5C, 0xAE408C2D,
             0xF83045F3, 0xF09D116D, 0x7A84120D);
  }

  lemma Abc224Rounds1(v: Vars, m: Block)
    requires Words1(m)
    requires Rounds(v, m, 8) ==
      Vars(0xF09D116D, 0x0B6B9023, 0xB2CA3A91, 0x08A0DC0C, 0x7A84120D, 0xA2E49147, 0x898DC7BB, 0x05B557DB)
    ensures Rounds(v, m, 16) ==
      Vars(0x9F341A45, 0x1D80D178, 0xBE316902, 0xFC4F023E, 0x6A61C411, 0x4545F53A, 0x65141125, 0x87BEA51A)
  {
    hide Rounds, Schedule;
    Constants1();
    OneRound(v, m, 8, 0xF09D116D, 0x0B6B9023, 0xB2CA3A91, 0x08A0DC0C, 0x7A84120D, 0xA2E49147, 0x898DC7BB, 0x05B557DB,
             0xD807AA98, 0x00000000, 0x35EA1048, 0x41AF5082, 0x420906BD, 0x7C27445B, 0x8B6F84E8, 0x7445B7C2,
             0xB7971EA1, 0xED6FA633, 0xC037FAAD);
    OneRound(v, m, 9, 0xED6FA633, 0xF09D116D, 0x0B6B9023, 0xB2CA3A91, 0xC037FAAD, 0x7A84120D, 0xA2E49147, 0x898DC7BB,
             0x12835B01, 0x00000000, 0xB700DFEA, 0x55B806FF, 0x1BFD56E0, 0xFB5BE98C, 0x319F6B7D, 0xBE98CFB5,
             0xF81AC600, 0x55E6A367, 0xAAE50091);
    OneRound(v, m, 10, 0x55E6A367, 0xED6FA633, 0xF09D116D, 0x0B6B9023, 0xAAE50091, 0xC037FAAD, 0x7A84120D, 0xA2E49147,
             0x243185BE, 0x00000000, 0x46AB9402, 0x12355CA0, 0x728048D5, 0xD579A8D9, 0x1B3AAF35, 0x9A8D9D57,
             0xBD59AA09, 0x0817E82B, 0xC8C53A2C);
    OneRound(v, m, 11, 0x0817E82B, 0x55E6A367, 0xED6FA633, 0xF09D116D, 0xC8C53A2C, 0xAAE50091, 0xC037FAAD, 0x7A84120D,
             0x550C7DC3, 0x00000000, 0xB32314E8, 0x459918A7, 0x629D1664, 0xC205FA0A, 0x415840BF, 0x5FA0AC20,
             0xECAF6A7C, 0x17142334, 0xDD4C7BE9);
    OneRound(v, m, 12, 0x17142334, 0x0817E82B, 0x55E6A367, 0xED6FA633, 0xDD4C7BE9, 0xC8C53A2C, 0xAAE50091, 0xC037FAAD,
             0x72BE5D74, 0x00000000, 0xA77531EF, 0x7D3BA98F, 0xA63DF4EE, 0x05C508CD, 0x19A0B8A1, 0x508CD05C,
             0x9A4EFEE7, 0xFC4F023E, 0x87BEA51A);
    OneRound(v, m, 13, 0xFC4F023E, 0x17142334, 0x0817E82B, 0x55E6A367, 0x87BEA51A, 0xDD4C7BE9, 0xC8C53A2C, 0xAAE50091,
             0x80DEB1FE, 0x00000000, 0x6A1EFA94, 0xA350F7D4, 0xDF528D43, 0xBF13C08F, 0x11F7E278, 0x3C08FBF1,
             0x0F2D6DBE, 0xBE316902, 0x65141125);
    OneRound(v, m, 14, 0xBE316902, 0xFC4F023E, 0x17142334, 0x0817E82B, 0x65141125, 0x87BEA51A, 0xDD4C7BE9, 0xC8C53A2C,
             0x9BDC06A7, 0x00000000, 0x95945044, 0x24ACA282, 0x8A0892B2, 0xAF8C5A40, 0x4815F18B, 0xC5A40AF8,
             0x3D2E0D0F, 0x1D80D178, 0x4545F53A);
    OneRound(v, m, 15, 0x1D80D178, 0xBE316902, 0xFC4F023E, 0x17142334, 0x4545F53A, 0x65141125, 0x87BEA51A, 0xDD4C7BE9,
             0xC19BF174, 0x00000018, 0xE91517D4, 0xA748A8BE, 0xA2FA9D22, 0x0760345E, 0x8BC0EC06, 0x0345E076,
             0x534DA0DD, 0x9F341A45, 0x6A61C411);
  }

  lemma Abc224Rounds2(v: Vars, m: Block)
    requires Words2(m)
    requires Rounds(v, m, 16) ==
      Vars(0x9F341A45, 0x1D80D178, 0xBE316902, 0xFC4F023E, 0x6A61C411, 0x4545F53A, 0x65141125, 0x87BEA51A)
    ensures Rounds(v, m, 24) ==
      Vars(0x57206FB8, 0xE62A812E, 0xDECE98A4, 0x07D55CCB, 0xC76084EA, 0x28FE0FD9, 0x293FFB5D, 0x9BA5A6EA)
  {
    hide Rounds, Schedule;
    Constants2();
    OneRound(v, m, 16, 0x9F341A45, 0x1D80D178, 0xBE316902, 0xFC4F023E, 0x6A61C411, 0x4545F53A, 0x65141125, 0x87BEA51A,
             0xE49B69C1, 0x61626380, 0x45A98710, 0x822D4C38, 0x30E208B5, 0x67CD0691, 0xD22CF9A0, 0xD069167C,
             0x0A790B2C, 0x0F324DB9, 0x06C80D6A);
    OneRound(v, m, 17, 0x0F324DB9, 0x9F341A45, 0x1D80D178, 0xBE316902, 0x06C80D6A, 0x6A61C411, 0x4545F53A, 0x65141125,
             0xEFBE4786, 0x000F0000, 0xA81B2035, 0xAD40D901, 0x6406B503, 0x43CC936E, 0x6DC87992, 0xC936E43C,
             0xF98498F2, 0xFFE7012B, 0xB7B601F4);
    OneRound(v, m, 18, 0xFFE7012B, 0x0F324DB9, 0x9F341A45, 0x1D80D178, 0xB7B601F4, 0x06C80D6A, 0x6A61C411, 0x4545F53A,
             0x0FC19DC6, 0x7DA86405, 0xD2DED807, 0x3E96F6C0, 0xDB00FA5B, 0xFFF9C04A, 0x095FFF38, 0x9C04AFFF,
             0x58BA9102, 0x62932AB8, 0x763B627A);
    OneRound(v, m, 19, 0x62932AB8, 0xFFE7012B, 0x0F324DB9, 0x9F341A45, 0x763B627A, 0xB7B601F4, 0x06C80D6A, 0x6A61C411,
             0x240CA1CC, 0x600003C6, 0xE9D8ED89, 0x4F4EC76C, 0x1DB13D3B, 0x18A4CAAE, 0x55C31499, 0x4CAAE18A,
             0xE0878EF1, 0x5207D867, 0x7FBBA936);
    OneRound(v, m, 20, 0x5207D867, 0x62932AB8, 0xFFE7012B, 0x0F324DB9, 0x7FBBA936, 0x763B627A, 0xB7B601F4, 0x06C80D6A,
             0x2DE92C6F, 0x3E9D7B78, 0xD9FEEEA4, 0x26CFF775, 0xDDD49B3F, 0xD481F619, 0xC33A903E, 0x1F619D48,
             0x8C735931, 0x07D55CCB, 0x9BA5A6EA);
    OneRound(v, m, 21, 0x07D55CCB, 0x5207D867, 0x62932AB8, 0xFFE7012B, 0x9BA5A6EA, 0x7FBBA936, 0x763B627A, 0xB7B601F4,
             0x4A7484AA, 0x0183FC00, 0xAA6E969B, 0xDD5374B4, 0xD2D3754D, 0xC1F55732, 0xE6583EAA, 0x55732C1F,
             0x2958FA32, 0xDECE98A4, 0x293FFB5D);
    OneRound(v, m, 22, 0xDECE98A4, 0x07D55CCB, 0x5207D867, 0x62932AB8, 0x293FFB5D, 0x9BA5A6EA, 0x7FBBA936, 0x763B627A,
             0x5CB0A9DC, 0x12DCBFDB, 0x74A4FFED, 0x6BA527FF, 0x9FFDAE94, 0x37B3A629, 0xC526F674, 0x3A62937B,
             0xC66AE521, 0xE62A812E, 0x28FE0FD9);
    OneRound(v, m, 23, 0xE62A812E, 0xDECE98A4, 0x07D55CCB, 0x5207D867, 0x28FE0FD9, 0x293FFB5D, 0x9BA5A6EA, 0x7FBBA936,
             0x76F988DA, 0xE2E2C38E, 0x64A3F83F, 0xFB251FC1, 0x7F07EC94, 0xB98AA04B, 0x09773154, 0xAA04BB98,
             0x7558AC83, 0x57206FB8, 0xC76084EA);
  }

  lemma Abc224Rounds3(v: Vars, m: Block)
    requires Words3(m)
    requires Rounds(v, m, 24) ==
      Vars(0x57206FB8, 0xE62A812E, 0xDECE98A4, 0x07D55CCB, 0xC76084EA, 0x28FE0FD9, 0x293FFB5D, 0x9BA5A6EA)
    ensures Rounds(v, m, 32) ==
      Vars(0xCCE1951D, 0x0D7CCE07, 0xFE3C8658, 0x2D1576C4, 0x4BE9475C, 0xA4A4A3A4, 0xFC4B36C5, 0x01641929)
  {
    hide Rounds, Schedule;
    Constants3();
    OneRound(v, m, 24, 0x57206FB8, 0xE62A812E, 0xDECE98A4, 0x07D55CCB, 0xC76084EA, 0x28FE0FD9, 0x293FFB5D, 0x9BA5A6EA,
             0x983E5152, 0xC8215C1A, 0xAB1D8213, 0x9D58EC10, 0xB0427563, 0x15C81BEE, 0x7DC2B903, 0x81BEE15C,
             0xAA8BEF93, 0x6A6ABCF0, 0xB2614C5E);
    OneRound(v, m, 25, 0x6A6ABCF0, 0x57206FB8, 0xE62A812E, 0xDECE98A4, 0xB2614C5E, 0xC76084EA, 0x28FE0FD9, 0x293FFB5D,
             0xA831C66D, 0xB73679A2, 0x7AC98531, 0x8BD64C29, 0x30A62F59, 0x1A9AAF3C, 0xE7835355, 0xAAF3C1A9,
             0xD5602978, 0x937514F0, 0xB42EC21C);
    OneRound(v, m, 26, 0x937514F0, 0x6A6ABCF0, 0x57206FB8, 0xE62A812E, 0xB42EC21C, 0xB2614C5E, 0xC76084EA, 0x28FE0FD9,
             0xB00327C8, 0xE5BC3909, 0x72D0BB08, 0x439685D8, 0x17610E5A, 0x24DD453C, 0xA7849BA8, 0xD453C24D,
             0xD844E632, 0x82AF3FFB, 0xBE6F6760);
    OneRound(v, m, 27, 0x82AF3FFB, 0x937514F0, 0x6A6ABCF0, 0x57206FB8, 0xBE6F6760, 0xB42EC21C, 0xB2614C5E, 0xC76084EA,
             0xBF597FC7, 0x32663C5B, 0x82F9BD9D, 0xEC17CDEC, 0x37B3B05F, 0xE0ABCFFE, 0xFFDC1579, 0xBCFFEE0A,
             0xC6AC4B58, 0xECA3BCD5, 0x1DCCBB10);
    OneRound(v, m, 28, 0xECA3BCD5, 0x82AF3FFB, 0x937514F0, 0x6A6ABCF0, 0x1DCCBB10, 0xBE6F6760, 0xB42EC21C, 0xB2614C5E,
             0xC6E00BF3, 0x9D209D67, 0x407732EC, 0x6203B997, 0xE65D880E, 0x7B28EF35, 0xE6AF651D, 0x8EF357B2,
             0x96F95C39, 0x2D1576C4, 0x01641929);
    OneRound(v, m, 29, 0x2D1576C4, 0xECA3BCD5, 0x82AF3FFB, 0x937514F0, 0x01641929, 0x1DCCBB10, 0xBE6F6760, 0xB42EC21C,
             0xD5A79147, 0xEC8726CB, 0xA4059064, 0x25202C83, 0xB20C9480, 0x0B455DB1, 0xB62168AB, 0x55DB10B4,
             0x68D621D5, 0xFE3C8658, 0xFC4B36C5);
    OneRound(v, m, 30, 0xFE3C8658, 0x2D1576C4, 0xECA3BCD5, 0x82AF3FFB, 0xFC4B36C5, 0x01641929, 0x1DCCBB10, 0xBE6F6760,
             0x06CA6351, 0x702138A4, 0x17F12CDB, 0xD8BF8966, 0x259B62FE, 0x3F8F2196, 0x32C7F1E4, 0xF21963F8,
             0x21F563A9, 0x0D7CCE07, 0xA4A4A3A4);
    OneRound(v, m, 31, 0x0D7CCE07, 0xFE3C8658, 0x2D1576C4, 0xECA3BCD5, 0xA4A4A3A4, 0xFC4B36C5, 0x01641929, 0x1DCCBB10,
             0x14292967, 0xD3B7973B, 0x9292928E, 0x74949494, 0x5251D252, 0xC35F3381, 0x70386BE6, 0xF3381C35,
             0x5F458A87, 0xCCE1951D, 0x4BE9475C);
  }

  lemma Abc224Rounds4(v: Vars, m: Block)
    requires Words4(m)
    requires Rounds(v, m, 32) ==
      Vars(0xCCE1951D, 0x0D7CCE07, 0xFE3C8658, 0x2D1576C4, 0x4BE9475C, 0xA4A4A3A4, 0xFC4B36C5, 0x01641929)
    ensures Rounds(v, m, 40) ==
      Vars(0xF3C80288, 0x7902369C, 0x0D275CA8, 0x2A2E32F4, 0x00E3A7BB, 0xD9F8C2E0, 0xF6C39382, 0x22E15C59)
  {
    hide Rounds, Schedule;
    Constants4();
    OneRound(v, m, 32, 0xCCE1951D, 0x0D7CCE07, 0xFE3C8658, 0x2D1576C4, 0x4BE9475C, 0xA4A4A3A4, 0xFC4B36C5, 0x01641929,
             0x27B70A85, 0x93F5997F, 0x712FA51D, 0xEB897D28, 0xF4A3AE25, 0x73386547, 0xA8EE670C, 0x86547733,
             0xDFB866C2, 0x09B76257, 0x0CCDDD86);
    OneRound(v, m, 33, 0x09B76257, 0xCCE1951D, 0x0D7CCE07, 0xFE3C8658, 0x0CCDDD86, 0x4BE9475C, 0xA4A4A3A4, 0xFC4B36C5,
             0x2E1B2138, 0x3B68BA73, 0x18333776, 0xB0C199BB, 0x66EEC306, 0xC26DD895, 0x12B84DBB, 0xDD895C26,
             0xDCD4E75F, 0xF827767E, 0xDB116DB7);
    OneRound(v, m, 34, 0xF827767E, 0x09B76257, 0xCCE1951D, 0x0D7CCE07, 0xDB116DB7, 0x0CCDDD86, 0x4BE9475C, 0xA4A4A3A4,
             0x4D2C6DFC, 0xAFF4FFC1, 0xDF6C45B6, 0xB6FB622D, 0x88B6DBED, 0xBE09DD9F, 0xB3F7C13B, 0x9DD9FBE0,
             0x8BD15DA5, 0xE4A0BB48, 0x994E2BAC);
    OneRound(v, m, 35, 0xE4A0BB48, 0xF827767E, 0x09B76257, 0xCCE1951D, 0x994E2BAC, 0xDB116DB7, 0x0CCDDD86, 0x4BE9475C,
             0x53380D13, 0xF10A5C62, 0xB26538AE, 0x759329C5, 0xA715D64C, 0x39282ED2, 0xDA472505, 0x82ED2392,
             0x8E91759E, 0xD8BB1041, 0x5B730ABB);
    OneRound(v, m, 36, 0xD8BB1041, 0xE4A0BB48, 0xF827767E, 0x09B76257, 0x5B730ABB, 0x994E2BAC, 0xDB116DB7, 0x0CCDDD86,
             0x650A7354, 0x0A8B3996, 0xED6DCC2A, 0x576B6E61, 0xB9855DAD, 0x762EC410, 0x820EC5D8, 0xEC410762,
             0x1929FA02, 0x2A2E32F4, 0x22E15C59);
    OneRound(v, m, 37, 0x2A2E32F4, 0xD8BB1041, 0xE4A0BB48, 0xF827767E, 0x22E15C59, 0x5B730ABB, 0x994E2BAC, 0xDB116DB7,
             0x766A0ABB, 0x72AF830A, 0x648B8571, 0x8B245C2B, 0x70AE2C91, 0x0A8B8CBD, 0x97A15171, 0xB8CBD0A8,
             0xFE9C1D04, 0x0D275CA8, 0xF6C39382);
    OneRound(v, m, 38, 0x0D275CA8, 0x2A2E32F4, 0xD8BB1041, 0xE4A0BB48, 0xF6C39382, 0x22E15C59, 0x5B730ABB, 0x994E2BAC,
             0x81C2C92E, 0x9409E33E, 0x0BDB0E4E, 0x705ED872, 0x61C9C17B, 0x0349D72A, 0xE540693A, 0x9D72A034,
             0xF5580798, 0x7902369C, 0xD9F8C2E0);
    OneRound(v, m, 39, 0x7902369C, 0x0D275CA8, 0x2A2E32F4, 0xD8BB1041, 0xD9F8C2E0, 0xF6C39382, 0x22E15C59, 0x5B730ABB,
             0x92722C85, 0x24641522, 0x8367E30B, 0x5C1B3F18, 0xFC61706C, 0x1E408DA7, 0xB4E3C811, 0x08DA71E4,
             0x2828977A, 0xF3C80288, 0x00E3A7BB);
  }

  lemma Abc224Rounds5(v: Vars, m: Block)
    requires Words5(m)
    requires Rounds(v, m, 40) ==
      Vars(0xF3C80288, 0x7902369C, 0x0D275CA8, 0x2A2E32F4, 0x00E3A7BB, 0xD9F8C2E0, 0xF6C39382, 0x22E15C59)
    ensures Rounds(v, m, 48) ==
      Vars(0x847EA00E, 0xFB3777D9, 0x131D4C09, 0xA3701BD9, 0x503A7B95, 0x1D601F44, 0xECB77E1B, 0xAF1BEF5F)
  {
    hide Rounds, Schedule;
    Constants5();
    OneRound(v, m, 40, 0xF3C80288, 0x7902369C, 0x0D275CA8, 0x2A2E32F4, 0x00E3A7BB, 0xD9F8C2E0, 0xF6C39382, 0x22E15C59,
             0xA2BFE8A1, 0x9F47BF94, 0xEC038E9E, 0xF7601C74, 0x71D3DD80, 0x3CF200A2, 0x14479E40, 0x200A23CF,
             0xC679E698, 0x483BBA4D, 0xF0A8198C);
    OneRound(v, m, 41, 0x483BBA4D, 0xF3C80288, 0x7902369C, 0x0D275CA8, 0xF0A8198C, 0x00E3A7BB, 0xD9F8C2E0, 0xF6C39382,
             0xA81A664B, 0xF0A64F5A, 0x33C2A066, 0x319E1503, 0x540CC678, 0x520EEE93, 0xD26A41DD, 0xEEE93520,
             0xEFC5802C, 0xD75D4D26, 0xFCECDCD4);
    OneRound(v, m, 42, 0xD75D4D26, 0x483BBA4D, 0xF3C80288, 0x7902369C, 0xFCECDCD4, 0xF0A8198C, 0x00E3A7BB, 0xD9F8C2E0,
             0xC24B8B70, 0x3E246A79, 0x53F3B373, 0x9A9F9D9B, 0x766E6A7E, 0xB5D75349, 0x6936BAEA, 0x75349B5D,
             0x8A16390E, 0x0744B618, 0x03186FAA);
    OneRound(v, m, 43, 0x0744B618, 0xD75D4D26, 0x483BBA4D, 0xF3C80288, 0x03186FAA, 0xFCECDCD4, 0xF0A8198C, 0x00E3A7BB,
             0xC76C51A3, 0x27333BA3, 0xA80C61BE, 0xF540630D, 0x8C37D501, 0x01D12D86, 0xB0C03A25, 0x12D8601D,
             0xB1A76937, 0x9CCE9F01, 0xA56F6BBF);
    OneRound(v, m, 44, 0x9CCE9F01, 0x0744B618, 0xD75D4D26, 0x483BBA4D, 0xA56F6BBF, 0x03186FAA, 0xFCECDCD4, 0xF0A8198C,
             0xD192E819, 0x0C4763F2, 0xFE95BDAE, 0x77F4ADED, 0xB7B5DFD2, 0x6733A7C0, 0xF80CE674, 0x3A7C0673,
             0x66E03512, 0xA3701BD9, 0xAF1BEF5F);
    OneRound(v, m, 45, 0xA3701BD9, 0x9CCE9F01, 0x0744B618, 0xD75D4D26, 0xAF1BEF5F, 0xA56F6BBF, 0x03186FAA, 0xFCECDCD4,
             0xD6990624, 0x840ABF27, 0x7EBC6FBD, 0xEBF5E37D, 0x8DF7AFD7, 0x68DC06F6, 0xDECD1B80, 0xC06F668D,
             0x155A30F5, 0x131D4C09, 0xECB77E1B);
    OneRound(v, m, 46, 0x131D4C09, 0xA3701BD9, 0x9CCE9F01, 0x0744B618, 0xECB77E1B, 0xAF1BEF5F, 0xA56F6BBF, 0x03186FAA,
             0xF40E3585, 0x7A290D5D, 0x6FB2DDF8, 0xC37D96EF, 0x5BBF0DF6, 0x44C75302, 0x604898EA, 0x7530244C,
             0x161B692C, 0xFB3777D9, 0x1D601F44);
    OneRound(v, m, 47, 0xFB3777D9, 0x131D4C09, 0xA3701BD9, 0x9CCE9F01, 0x1D601F44, 0xECB77E1B, 0xAF1BEF5F, 0xA56F6BBF,
             0x106AA070, 0x065C43DA, 0x1075807D, 0xE883AC03, 0xB00FA20E, 0x7ECDDDF6, 0xBECFD9BB, 0xDDDF67EC,
             0xB36BDC94, 0x847EA00E, 0x503A7B95);
  }

  lemma Abc224Rounds6(v: Vars, m: Block)
    requires Words6(m)
    requires Rounds(v, m, 48) ==
      Vars(0x847EA00E, 0xFB3777D9, 0x131D4C09, 0xA3701BD9, 0x503A7B95, 0x1D601F44, 0xECB77E1B, 0xAF1BEF5F)
    ensures Rounds(v, m, 56) ==
      Vars(0x8D25BD94, 0x909CC059, 0x308B8799, 0x0DF9857A, 0x1273C622, 0x6F2A444A, 0x02524F02, 0x2D864D9F)
  {
    hide Rounds, Schedule;
    Constants6();
    OneRound(v, m, 48, 0x847EA00E, 0xFB3777D9, 0x131D4C09, 0xA3701BD9, 0x503A7B95, 0x1D601F44, 0xECB77E1B, 0xAF1BEF5F,
             0x19A4C116, 0xFB3E89CB, 0x5540E9EE, 0x72AA074F, 0x1D3DCAA8, 0xA11FA803, 0x007423F5, 0xFA803A11,
             0xBB7B7D57, 0xAAA69347, 0x5EEB9930);
    OneRound(v, m, 49, 0xAAA69347, 0x847EA00E, 0xFB3777D9, 0x131D4C09, 0x5EEB9930, 0x503A7B95, 0x1D601F44, 0xECB77E1B,
             0x1E376C08, 0xCC7617DB, 0xC17BAE64, 0x260BDD73, 0x75CC982F, 0xEAA9A4D1, 0x9A3D5534, 0x9A4D1EAA,
             0xBB4C0C8A, 0x505CAF28, 0xCE695893);
    OneRound(v, m, 50, 0x505CAF28, 0xAAA69347, 0x847EA00E, 0xFB3777D9, 0xCE695893, 0x5EEB9930, 0x503A7B95, 0x1D601F44,
             0x2748774C, 0xB9E66C34, 0x4F39A562, 0x1279CD2B, 0x34AC49E7, 0x14172BCA, 0x794282E5, 0x72BCA141,
             0xC6F65F86, 0x675E0B02, 0xC22DD75F);
    OneRound(v, m, 51, 0x675E0B02, 0x505CAF28, 0xAAA69347, 0x847EA00E, 0xC22DD75F, 0xCE695893, 0x5EEB9930, 0x503A7B95,
             0x34B0BCB5, 0xA9993667, 0x7F08B75D, 0xEBF845BA, 0x16EBAFE1, 0x99D782C0, 0x58133AF0, 0x782C099D,
             0x8F8B23EA, 0xABD26099, 0x1409C3F8);
    OneRound(v, m, 52, 0xABD26099, 0x675E0B02, 0x505CAF28, 0xAAA69347, 0x1409C3F8, 0xC22DD75F, 0xCE695893, 0x5EEB9930,
             0x391C0CB3, 0x84BADEDD, 0xE050270F, 0x7F028138, 0x04E1FC0A, 0x6AF49826, 0x04CD5E93, 0x498266AF,
             0x82DFBA58, 0x0DF9857A, 0x2D864D9F);
    OneRound(v, m, 53, 0x0DF9857A, 0xABD26099, 0x675E0B02, 0x505CAF28, 0x2D864D9F, 0x1409C3F8, 0xC22DD75F, 0xCE695893,
             0x4ED8AA4A, 0xC21462BC, 0x7CB61936, 0xB3E5B0C9, 0xC326CF96, 0x837E615E, 0x2BD06FCC, 0xE615E837,
             0xB1F59FDA, 0x308B8799, 0x02524F02);
    OneRound(v, m, 54, 0x308B8799, 0x0DF9857A, 0xABD26099, 0x675E0B02, 0x02524F02, 0x2D864D9F, 0x1409C3F8, 0xC22DD75F,
             0x5B9CCA4F, 0x1487472C, 0x0809493C, 0xE0404A49, 0x29278101, 0x4C22E1E6, 0x3CC9845C, 0x2E1E64C2,
             0x07CC3948, 0x909CC059, 0x6F2A444A);
    OneRound(v, m, 55, 0x909CC059, 0x308B8799, 0x0DF9857A, 0xABD26099, 0x6F2A444A, 0x02524F02, 0x2D864D9F, 0x1409C3F8,
             0x682E6FF3, 0xB20F7A99, 0x29BCA911, 0x894DE548, 0x95222537, 0x64273016, 0x02CC84E6, 0x73016642,
             0x66A16589, 0x8D25BD94, 0x1273C622);
  }

  lemma Abc224Rounds7(v: Vars, m: Block)
    requires Words7(m)
    requires Rounds(v, m, 56) ==
      Vars(0x8D25BD94, 0x909CC059, 0x308B8799, 0x0DF9857A, 0x1273C622, 0x6F2A444A, 0x02524F02, 0x2D864D9F)
    ensures Rounds(v, m, 64) ==
      Vars(0x6203DE4A, 0xFD89031B, 0x55D1C760, 0xC693FC7A, 0x2AEDB1B3, 0x55489EE6, 0x7E730E00, 0x13DFB889)
  {
    hide Rounds, Schedule;
    Constants7();
    OneRound(v, m, 56, 0x8D25BD94, 0x909CC059, 0x308B8799, 0x0DF9857A, 0x1273C622, 0x6F2A444A, 0x02524F02, 0x2D864D9F,
             0x748F82EE, 0xEF57B9CD, 0x8849CF18, 0xC4424E78, 0x39E31109, 0x23496F65, 0xECA4692D, 0x96F65234,
             0x097867C5, 0xF32141DA, 0x1771ED3F);
    OneRound(v, m, 57, 0xF32141DA, 0x8D25BD94, 0x909CC059, 0x308B8799, 0x1771ED3F, 0x1273C622, 0x6F2A444A, 0x02524F02,
             0x78A5636F, 0xEBE6B238, 0xFC5DC7B4, 0xA7E2EE3D, 0xB8F69F8B, 0xBCC85076, 0x0ED7990A, 0x85076BCC,
             0xC4A3DF0D, 0x8CE24395, 0xF52F66A6);
    OneRound(v, m, 58, 0x8CE24395, 0xF32141DA, 0x8D25BD94, 0x909CC059, 0xF52F66A6, 0x1771ED3F, 0x1273C622, 0x6F2A444A,
             0x84C87814, 0x9FE3095E, 0x9BD4BD9A, 0xD4DEA5EC, 0x97B3537A, 0x633890E5, 0x1CAC6712, 0x890E5633,
             0x8400F4EE, 0x07BCD846, 0x149DB547);
    OneRound(v, m, 59, 0x07BCD846, 0x8CE24395, 0xF32141DA, 0x8D25BD94, 0x149DB547, 0xF52F66A6, 0x1771ED3F, 0x1273C622,
             0x8CC70208, 0x78BC8D4B, 0x1C5276D5, 0xA8E293B6, 0x4EDAA38A, 0x81EF3611, 0xC2303DE6, 0xF361181E,
             0x29CF089C, 0x622D5E5B, 0xB6F4C630);
    OneRound(v, m, 60, 0x622D5E5B, 0x07BCD846, 0x8CE24395, 0xF32141DA, 0xB6F4C630, 0x149DB547, 0xF52F66A6, 0x1771ED3F,
             0x90BEFFFA, 0xA43FCF15, 0xC2DBD318, 0xC616DE98, 0x7A63185B, 0xD88B5796, 0xF2DB116A, 0xB5796D88,
             0x20BE76AF, 0xC693FC7A, 0x13DFB889);
    OneRound(v, m, 61, 0xC693FC7A, 0x622D5E5B, 0x07BCD846, 0x8CE24395, 0x13DFB889, 0xB6F4C630, 0x149DB547, 0xF52F66A6,
             0xA4506CEB, 0x668B2FF8, 0x244F7EE2, 0x11227BF7, 0xEFDC4489, 0xB1A4FF1E, 0xE3D6349F, 0x4FF1EB1A,
             0xF190CA6B, 0x55D1C760, 0x7E730E00);
    OneRound(v, m, 62, 0x55D1C760, 0xC693FC7A, 0x622D5E5B, 0x07BCD846, 0x7E730E00, 0x13DFB889, 0xB6F4C630, 0x149DB547,
             0xBEF9A3F7, 0xEEABA2CC, 0x01F9CC38, 0xC00FCE61, 0x3987003F, 0x157471D8, 0x3B02AE8E, 0x471D8157,
             0x4D8BC6A0, 0xFD89031B, 0x55489EE6);
    OneRound(v, m, 63, 0xFD89031B, 0x55D1C760, 0xC693FC7A, 0x622D5E5B, 0x55489EE6, 0x7E730E00, 0x13DFB889, 0xB6F4C630,
             0xC67178F2, 0x12B1EDEB, 0x9955227B, 0xDCCAA913, 0xA44F732A, 0xFF6240C6, 0x18DFEC48, 0x240C6FF6,
             0xC8C05358, 0x6203DE4A, 0x2AEDB1B3);
  }

  lemma OneBlock(h: Vars)
    ensures Absorb(h, Pad(Abc)) == Compress(h, Message())
  {
    PaddedIs();
    assert Pad(Abc)[..64] == Message() && Pad(Abc)[64..] == [];
    hide Pad, Compress;
  }

  lemma Abc256Rounds(v: Vars, m: Block)
    requires Words0(m) && Words1(m) && Words2(m) && Words3(m) && Words4(m) && Words5(m) && Words6(m) && Words7(m)
    requires v == Vars(0x6A09E667, 0xBB67AE85, 0x3C6EF372, 0xA54FF53A, 0x510E527F, 0x9B05688C, 0x1F83D9AB, 0x5BE0CD19)
    ensures Rounds(v, m, 64) ==
      Vars(0x506E3058, 0xD39A2165, 0x04D24D6C, 0xB85E2CE9, 0x5EF50F24, 0xFB121210, 0x948D25B6, 0x961F4894)
  {
    assert Rounds(v, m, 0) == v;
    hide Rounds, Words0, Words1, Words2, Words3, Words4, Words5, Words6, Words7;
    Abc256Rounds0(v, m); Abc256Rounds1(v, m); Abc256Rounds2(v, m); Abc256Rounds3(v, m);
    Abc256Rounds4(v, m); Abc256Rounds5(v, m); Abc256Rounds6(v, m); Abc256Rounds7(v, m);
  }

  lemma Abc256Compressed()
    ensures Compress(InitialValue(false), Message()) ==
      Vars(0xBA7816BF, 0x8F01CFEA, 0x414140DE, 0x5DAE2223, 0xB00361A3, 0x96177A9C, 0xB410FF61, 0xF20015AD)
  {
    hide Rounds, Message, Words0, Words1, Words2, Words3, Words4, Words5, Words6, Words7;
    AllWords();
    Abc256Rounds(InitialValue(false), Message());
  }

  /** The digest of "abc" under SHA-256. */
  lemma Abc256Digest()
    ensures Digest(Abc, false) == Sum256
  {
    OneBlock(InitialValue(false));
    hide Absorb, Compress, Pad, Message, InitialValue;
    Abc256Compressed();
    assert BytesOf(0xBA7816BF) == [0xBA, 0x78, 0x16, 0xBF];
    assert BytesOf(0x8F01CFEA) == [0x8F, 0x01, 0xCF, 0xEA];
    assert BytesOf(0x414140DE) == [0x41, 0x41, 0x40, 0xDE];
    assert BytesOf(0x5DAE2223) == [0x5D, 0xAE, 0x22, 0x23];
    assert BytesOf(0xB00361A3) == [0xB0, 0x03, 0x61, 0xA3];
    assert BytesOf(0x96177A9C) == [0x96, 0x17, 0x7A, 0x9C];
    assert BytesOf(0xB410FF61) == [0xB4, 0x10, 0xFF, 0x61];
    assert BytesOf(0xF20015AD) == [0xF2, 0x00, 0x15, 0xAD];
    hide BytesOf;
  }

  lemma Abc224Rounds(v: Vars, m: Block)
    requires Words0(m) && Words1(m) && Words2(m) && Words3(m) && Words4(m) && Words5(m) && Words6(m) && Words7(m)
    requires v == Vars(0xC1059ED8, 0x367CD507, 0x3070DD17, 0xF70E5939, 0xFFC00B31, 0x68581511, 0x64F98FA7, 0xBEFA4FA4)
    ensures Rounds(v, m, 64) ==
      Vars(0x6203DE4A, 0xFD89031B, 0x55D1C760, 0xC693FC7A, 0x2AEDB1B3, 0x55489EE6, 0x7E730E00, 0x13DFB889)
  {
    assert Rounds(v, m, 0) == v;
    hide Rounds, Words0, Words1, Words2, Words3, Words4, Words5, Words6, Words7;
    Abc224Rounds0(v, m); Abc224Rounds1(v, m); Abc224Rounds2(v, m); Abc224Rounds3(v, m);
    Abc224Rounds4(v, m); Abc224Rounds5(v, m); Abc224Rounds6(v, m); Abc224Rounds7(v, m);
  }

  lemma Abc224Compressed()
    ensures Compress(InitialValue(true), Message()) ==
      Vars(0x23097D22, 0x3405D822, 0x8642A477, 0xBDA255B3, 0x2AADBCE4, 0xBDA0B3F7, 0xE36C9DA7, 0xD2DA082D)
  {
    hide Rounds, Message, Words0, Words1, Words2, Words3, Words4, Words5, Words6, Words7;
    AllWords();
    Abc224Rounds(InitialValue(true), Message());
  }

  /** The digest of "abc" under SHA-224. */
  lemma Abc224Digest()
    ensures Digest(Abc, true) == Sum224
  {
    OneBlock(InitialValue(true));
    hide Absorb, Compress, Pad, Message, InitialValue;
    Abc224Compressed();
    assert BytesOf(0x23097D22) == [0x23, 0x09, 0x7D, 0x22];
    assert BytesOf(0x3405D822) == [0x34, 0x05, 0xD8, 0x22];
    assert BytesOf(0x8642A477) == [0x86, 0x42, 0xA4, 0x77];
    assert BytesOf(0xBDA255B3) == [0xBD, 0xA2, 0x55, 0xB3];
    assert BytesOf(0x2AADBCE4) == [0x2A, 0xAD, 0xBC, 0xE4];
    assert BytesOf(0xBDA0B3F7) == [0xBD, 0xA0, 0xB3, 0xF7];
    assert BytesOf(0xE36C9DA7) == [0xE3, 0x6C, 0x9D, 0xA7];
    hide BytesOf;
  }

  /** The part of the self test that hashes "abc": the streaming implementation gives the sum that is expected. */
  method SelfTest(is224: bool) returns (sum: seq<Byte>)
    ensures sum == if is224 then Sum224 else Sum256
  {
    var output := new Byte[32](i => 0);
    Sha256.Hash(Abc, is224, output);
    hide Digest;
    if is224 { Abc224Digest(); } else { Abc256Digest(); }
    sum := output[..if is224 then 28 else 32];
  }
}
