/**
  The worked example of SHA-256: the digest of "abc", word by word and round by round. Every function of section 4.1.2
  of FIPS 180-4, all of its constants, the padding and the byte order take part in it, and none of the numbers here
  comes from them.
 */
module Sha256Example {
  import opened Sha256

  const ABC: seq<Byte> := [0x61, 0x62, 0x63]

  // ---------------------------------------------------------------- the padded message

  lemma {:induction false} BigEndianZero(k: nat)
    ensures BigEndian(0, k) == Zeros(k)
  {
    if k > 0 {
      BigEndianZero(k - 1);
    }
  }

  lemma AbcPadded()
    ensures Pad(ABC) == ABC + [0x80] + Zeros(59) + [0x18] && |Pad(ABC)| == 64
  {
    BigEndianZero(7);
    assert ZeroBytes(3) == 52;
    assert BigEndian(24, 8) == BigEndian(0, 7) + [24 as Byte];
    assert Zeros(52) + Zeros(7) == Zeros(59);
  }

  // ---------------------------------------------------------------- the message schedule

  /** The words of its one block. */
  ghost predicate AbcWords(ws: seq<Word>) { |Pad(ABC)| == 64 && ws == Words(Pad(ABC)) }

  lemma First(t: nat)
    requires t < 16 && |Pad(ABC)| == 64
    ensures Words(Pad(ABC))[t] == if t == 0 then 0x61626380 else if t == 15 then 0x18 else 0
  {
    AbcPadded();
    var p := Pad(ABC);
    assert Words(p)[t] == WordOf(p[4 * t], p[4 * t + 1], p[4 * t + 2], p[4 * t + 3]);
  }

  lemma Later(ws: seq<Word>, t: nat)
    requires AbcWords(ws) && 16 <= t < 64
    ensures ws[t] == NextWord(ws[t - 2], ws[t - 7], ws[t - 15], ws[t - 16])
  {}

  predicate Words0(ws: seq<Word>) {
    && |ws| == 64 && ws[0] == 0x61626380 && ws[1] == 0x00000000 && ws[2] == 0x00000000 && ws[3] == 0x00000000
    && ws[4] == 0x00000000 && ws[5] == 0x00000000 && ws[6] == 0x00000000 && ws[7] == 0x00000000
  }

  predicate Words1(ws: seq<Word>) {
    && |ws| == 64 && ws[8] == 0x00000000 && ws[9] == 0x00000000 && ws[10] == 0x00000000 && ws[11] == 0x00000000
    && ws[12] == 0x00000000 && ws[13] == 0x00000000 && ws[14] == 0x00000000 && ws[15] == 0x00000018
  }

  predicate Words2(ws: seq<Word>) {
    && |ws| == 64 && ws[16] == 0x61626380 && ws[17] == 0x000f0000 && ws[18] == 0x7da86405 && ws[19] == 0x600003c6
    && ws[20] == 0x3e9d7b78 && ws[21] == 0x0183fc00 && ws[22] == 0x12dcbfdb && ws[23] == 0xe2e2c38e
  }

  predicate Words3(ws: seq<Word>) {
    && |ws| == 64 && ws[24] == 0xc8215c1a && ws[25] == 0xb73679a2 && ws[26] == 0xe5bc3909 && ws[27] == 0x32663c5b
    && ws[28] == 0x9d209d67 && ws[29] == 0xec8726cb && ws[30] == 0x702138a4 && ws[31] == 0xd3b7973b
  }

  predicate Words4(ws: seq<Word>) {
    && |ws| == 64 && ws[32] == 0x93f5997f && ws[33] == 0x3b68ba73 && ws[34] == 0xaff4ffc1 && ws[35] == 0xf10a5c62
    && ws[36] == 0x0a8b3996 && ws[37] == 0x72af830a && ws[38] == 0x9409e33e && ws[39] == 0x24641522
  }

  predicate Words5(ws: seq<Word>) {
    && |ws| == 64 && ws[40] == 0x9f47bf94 && ws[41] == 0xf0a64f5a && ws[42] == 0x3e246a79 && ws[43] == 0x27333ba3
    && ws[44] == 0x0c4763f2 && ws[45] == 0x840abf27 && ws[46] == 0x7a290d5d && ws[47] == 0x065c43da
  }

  predicate Words6(ws: seq<Word>) {
    && |ws| == 64 && ws[48] == 0xfb3e89cb && ws[49] == 0xcc7617db && ws[50] == 0xb9e66c34 && ws[51] == 0xa9993667
    && ws[52] == 0x84badedd && ws[53] == 0xc21462bc && ws[54] == 0x1487472c && ws[55] == 0xb20f7a99
  }

  predicate Words7(ws: seq<Word>) {
    && |ws| == 64 && ws[56] == 0xef57b9cd && ws[57] == 0xebe6b238 && ws[58] == 0x9fe3095e && ws[59] == 0x78bc8d4b
    && ws[60] == 0xa43fcf15 && ws[61] == 0x668b2ff8 && ws[62] == 0xeeaba2cc && ws[63] == 0x12b1edeb
  }

  lemma FirstWords(ws: seq<Word>)
    requires AbcWords(ws)
    ensures Words0(ws) && Words1(ws)
  {
    First(0);
    First(1);
    First(2);
    First(3);
    First(4);
    First(5);
    First(6);
    First(7);
    First(8);
    First(9);
    First(10);
    First(11);
    First(12);
    First(13);
    First(14);
    First(15);
  }

  lemma NextWords2(ws: seq<Word>)
    requires AbcWords(ws) && Words0(ws) && Words1(ws)
    ensures Words2(ws)
  {
    Later(ws, 16);
    Later(ws, 17);
    Later(ws, 18);
    Later(ws, 19);
    Later(ws, 20);
    Later(ws, 21);
    Later(ws, 22);
    Later(ws, 23);
  }

  lemma NextWords3(ws: seq<Word>)
    requires AbcWords(ws) && Words1(ws) && Words2(ws)
    ensures Words3(ws)
  {
    Later(ws, 24);
    Later(ws, 25);
    Later(ws, 26);
    Later(ws, 27);
    Later(ws, 28);
    Later(ws, 29);
    Later(ws, 30);
    Later(ws, 31);
  }

  lemma NextWords4(ws: seq<Word>)
    requires AbcWords(ws) && Words2(ws) && Words3(ws)
    ensures Words4(ws)
  {
    Later(ws, 32);
    Later(ws, 33);
    Later(ws, 34);
    Later(ws, 35);
    Later(ws, 36);
    Later(ws, 37);
    Later(ws, 38);
    Later(ws, 39);
  }

  lemma NextWords5(ws: seq<Word>)
    requires AbcWords(ws) && Words3(ws) && Words4(ws)
    ensures Words5(ws)
  {
    Later(ws, 40);
    Later(ws, 41);
    Later(ws, 42);
    Later(ws, 43);
    Later(ws, 44);
    Later(ws, 45);
    Later(ws, 46);
    Later(ws, 47);
  }

  lemma NextWords6(ws: seq<Word>)
    requires AbcWords(ws) && Words4(ws) && Words5(ws)
    ensures Words6(ws)
  {
    Later(ws, 48);
    Later(ws, 49);
    Later(ws, 50);
    Later(ws, 51);
    Later(ws, 52);
    Later(ws, 53);
    Later(ws, 54);
    Later(ws, 55);
  }

  lemma NextWords7(ws: seq<Word>)
    requires AbcWords(ws) && Words5(ws) && Words6(ws)
    ensures Words7(ws)
  {
    Later(ws, 56);
    Later(ws, 57);
    Later(ws, 58);
    Later(ws, 59);
    Later(ws, 60);
    Later(ws, 61);
    Later(ws, 62);
    Later(ws, 63);
  }

  // ---------------------------------------------------------------- the rounds

  lemma Keys0()
    ensures && |K| == 64 && K[0] == 0x428a2f98 && K[1] == 0x71374491 && K[2] == 0xb5c0fbcf && K[3] == 0xe9b5dba5
            && K[4] == 0x3956c25b && K[5] == 0x59f111f1 && K[6] == 0x923f82a4 && K[7] == 0xab1c5ed5
  {}

  lemma Keys1()
    ensures && |K| == 64 && K[8] == 0xd807aa98 && K[9] == 0x12835b01 && K[10] == 0x243185be && K[11] == 0x550c7dc3
            && K[12] == 0x72be5d74 && K[13] == 0x80deb1fe && K[14] == 0x9bdc06a7 && K[15] == 0xc19bf174
  {}

  lemma Keys2()
    ensures && |K| == 64 && K[16] == 0xe49b69c1 && K[17] == 0xefbe4786 && K[18] == 0x0fc19dc6 && K[19] == 0x240ca1cc
            && K[20] == 0x2de92c6f && K[21] == 0x4a7484aa && K[22] == 0x5cb0a9dc && K[23] == 0x76f988da
  {}

  lemma Keys3()
    ensures && |K| == 64 && K[24] == 0x983e5152 && K[25] == 0xa831c66d && K[26] == 0xb00327c8 && K[27] == 0xbf597fc7
            && K[28] == 0xc6e00bf3 && K[29] == 0xd5a79147 && K[30] == 0x06ca6351 && K[31] == 0x14292967
  {}

  lemma Keys4()
    ensures && |K| == 64 && K[32] == 0x27b70a85 && K[33] == 0x2e1b2138 && K[34] == 0x4d2c6dfc && K[35] == 0x53380d13
            && K[36] == 0x650a7354 && K[37] == 0x766a0abb && K[38] == 0x81c2c92e && K[39] == 0x92722c85
  {}

  lemma Keys5()
    ensures && |K| == 64 && K[40] == 0xa2bfe8a1 && K[41] == 0xa81a664b && K[42] == 0xc24b8b70 && K[43] == 0xc76c51a3
            && K[44] == 0xd192e819 && K[45] == 0xd6990624 && K[46] == 0xf40e3585 && K[47] == 0x106aa070
  {}

  lemma Keys6()
    ensures && |K| == 64 && K[48] == 0x19a4c116 && K[49] == 0x1e376c08 && K[50] == 0x2748774c && K[51] == 0x34b0bcb5
            && K[52] == 0x391c0cb3 && K[53] == 0x4ed8aa4a && K[54] == 0x5b9cca4f && K[55] == 0x682e6ff3
  {}

  lemma Keys7()
    ensures && |K| == 64 && K[56] == 0x748f82ee && K[57] == 0x78a5636f && K[58] == 0x84c87814 && K[59] == 0x8cc70208
            && K[60] == 0x90befffa && K[61] == 0xa4506ceb && K[62] == 0xbef9a3f7 && K[63] == 0xc67178f2
  {}

  /** Round t, from v to a and e and what moves up. */
  lemma Turn(ws: seq<Word>, t: nat, v: Vars, a: Word, e: Word) returns (v': Vars)
    requires |ws| == 64 && t < 64 && Rounds(H0, ws, t) == v
    requires Round(v, K[t], ws[t]) == Vars(a, v.a, v.b, v.c, e, v.e, v.f, v.g)
    ensures v' == Vars(a, v.a, v.b, v.c, e, v.e, v.f, v.g) && Rounds(H0, ws, t + 1) == v'
  {
    v' := Vars(a, v.a, v.b, v.c, e, v.e, v.f, v.g);
  }

  lemma Rounds0(ws: seq<Word>, v: Vars) returns (v': Vars)
    requires Words0(ws) && Rounds(H0, ws, 0) == v
    requires v == Vars(0x6a09e667, 0xbb67ae85, 0x3c6ef372, 0xa54ff53a, 0x510e527f, 0x9b05688c, 0x1f83d9ab, 0x5be0cd19)
    ensures Rounds(H0, ws, 8) == v'
    ensures v' == Vars(0x85a07b5f, 0xe5030380, 0x2b4209f5, 0x04409a6a, 0x0c657a79, 0x9b27a401, 0x714260ad, 0x43ada245)
  {
    Keys0();
    v' := Turn(ws, 0, v, 0x5d6aebcd, 0xfa2a4622);
    v' := Turn(ws, 1, v', 0x5a6ad9ad, 0x78ce7989);
    v' := Turn(ws, 2, v', 0xc8c347a7, 0xf92939eb);
    v' := Turn(ws, 3, v', 0xd550f666, 0x24e00850);
    v' := Turn(ws, 4, v', 0x04409a6a, 0x43ada245);
    v' := Turn(ws, 5, v', 0x2b4209f5, 0x714260ad);
    v' := Turn(ws, 6, v', 0xe5030380, 0x9b27a401);
    v' := Turn(ws, 7, v', 0x85a07b5f, 0x0c657a79);
  }

  lemma Rounds1(ws: seq<Word>, v: Vars) returns (v': Vars)
    requires Words1(ws) && Rounds(H0, ws, 8) == v
    requires v == Vars(0x85a07b5f, 0xe5030380, 0x2b4209f5, 0x04409a6a, 0x0c657a79, 0x9b27a401, 0x714260ad, 0x43ada245)
    ensures Rounds(H0, ws, 16) == v'
    ensures v' == Vars(0xb0fa238e, 0xc0645fde, 0xd932eb16, 0x87912990, 0x07590dcd, 0x0b92f20c, 0x745a48de, 0x1e578218)
  {
    Keys1();
    v' := Turn(ws, 8, v, 0x8e04ecb9, 0x32ca2d8c);
    v' := Turn(ws, 9, v', 0x8c87346b, 0x1cc92596);
    v' := Turn(ws, 10, v', 0x4798a3f4, 0x436b23e8);
    v' := Turn(ws, 11, v', 0xf71fc5a9, 0x816fd6e9);
    v' := Turn(ws, 12, v', 0x87912990, 0x1e578218);
    v' := Turn(ws, 13, v', 0xd932eb16, 0x745a48de);
    v' := Turn(ws, 14, v', 0xc0645fde, 0x0b92f20c);
    v' := Turn(ws, 15, v', 0xb0fa238e, 0x07590dcd);
  }

  lemma Rounds2(ws: seq<Word>, v: Vars) returns (v': Vars)
    requires Words2(ws) && Rounds(H0, ws, 16) == v
    requires v == Vars(0xb0fa238e, 0xc0645fde, 0xd932eb16, 0x87912990, 0x07590dcd, 0x0b92f20c, 0x745a48de, 0x1e578218)
    ensures Rounds(H0, ws, 24) == v'
    ensures v' == Vars(0xc5d53d8d, 0xa7a3623f, 0xc2606d6d, 0x9dc68b63, 0xaa47c347, 0x49f5114a, 0xe1257970, 0x8ada8930)
  {
    Keys2();
    v' := Turn(ws, 16, v, 0x21da9a9b, 0x8034229c);
    v' := Turn(ws, 17, v', 0xc2fbd9d1, 0x846ee454);
    v' := Turn(ws, 18, v', 0xfe777bbf, 0xcc899961);
    v' := Turn(ws, 19, v', 0xe1f20c33, 0xb0638179);
    v' := Turn(ws, 20, v', 0x9dc68b63, 0x8ada8930);
    v' := Turn(ws, 21, v', 0xc2606d6d, 0xe1257970);
    v' := Turn(ws, 22, v', 0xa7a3623f, 0x49f5114a);
    v' := Turn(ws, 23, v', 0xc5d53d8d, 0xaa47c347);
  }

  lemma Rounds3(ws: seq<Word>, v: Vars) returns (v': Vars)
    requires Words3(ws) && Rounds(H0, ws, 24) == v
    requires v == Vars(0xc5d53d8d, 0xa7a3623f, 0xc2606d6d, 0x9dc68b63, 0xaa47c347, 0x49f5114a, 0xe1257970, 0x8ada8930)
    ensures Rounds(H0, ws, 32) == v'
    ensures v' == Vars(0x73b33bf5, 0xea992a22, 0xa0060b30, 0x363482c9, 0xba591112, 0x0109ab3a, 0xade79437, 0x6112a3b7)
  {
    Keys3();
    v' := Turn(ws, 24, v, 0x1c2c2838, 0x2823ef91);
    v' := Turn(ws, 25, v', 0xcde8037d, 0x14383d8e);
    v' := Turn(ws, 26, v', 0xb62ec4bc, 0xc74c6516);
    v' := Turn(ws, 27, v', 0x77d37528, 0xedffbff8);
    v' := Turn(ws, 28, v', 0x363482c9, 0x6112a3b7);
    v' := Turn(ws, 29, v', 0xa0060b30, 0xade79437);
    v' := Turn(ws, 30, v', 0xea992a22, 0x0109ab3a);
    v' := Turn(ws, 31, v', 0x73b33bf5, 0xba591112);
  }

  lemma Rounds4(ws: seq<Word>, v: Vars) returns (v': Vars)
    requires Words4(ws) && Rounds(H0, ws, 32) == v
    requires v == Vars(0x73b33bf5, 0xea992a22, 0xa0060b30, 0x363482c9, 0xba591112, 0x0109ab3a, 0xade79437, 0x6112a3b7)
    ensures Rounds(H0, ws, 40) == v'
    ensures v' == Vars(0x79ea687a, 0x6dc57a8a, 0x34df1604, 0x41a65cb1, 0x1efbc0a0, 0xf0781bc8, 0xa507a53d, 0x0772a26b)
  {
    Keys4();
    v' := Turn(ws, 32, v, 0x98e12507, 0x9cd9f5f6);
    v' := Turn(ws, 33, v', 0xfe604df5, 0x59249dd3);
    v' := Turn(ws, 34, v', 0xa9a7738c, 0x085f3833);
    v' := Turn(ws, 35, v', 0x65a0cfe4, 0xf4b002d6);
    v' := Turn(ws, 36, v', 0x41a65cb1, 0x0772a26b);
    v' := Turn(ws, 37, v', 0x34df1604, 0xa507a53d);
    v' := Turn(ws, 38, v', 0x6dc57a8a, 0xf0781bc8);
    v' := Turn(ws, 39, v', 0x79ea687a, 0x1efbc0a0);
  }

  lemma Rounds5(ws: seq<Word>, v: Vars) returns (v': Vars)
    requires Words5(ws) && Rounds(H0, ws, 40) == v
    requires v == Vars(0x79ea687a, 0x6dc57a8a, 0x34df1604, 0x41a65cb1, 0x1efbc0a0, 0xf0781bc8, 0xa507a53d, 0x0772a26b)
    ensures Rounds(H0, ws, 48) == v'
    ensures v' == Vars(0x4172328d, 0xa14c14b0, 0x72ab4b91, 0x26628815, 0xfecf0bc6, 0xd57b94a9, 0xb7755da1, 0xa80f11f0)
  {
    Keys5();
    v' := Turn(ws, 40, v, 0xd6670766, 0x26352d63);
    v' := Turn(ws, 41, v', 0xdf46652f, 0x838b2711);
    v' := Turn(ws, 42, v', 0x17aa0dfe, 0xdecd4715);
    v' := Turn(ws, 43, v', 0x9d4baf93, 0xfda24c2e);
    v' := Turn(ws, 44, v', 0x26628815, 0xa80f11f0);
    v' := Turn(ws, 45, v', 0x72ab4b91, 0xb7755da1);
    v' := Turn(ws, 46, v', 0xa14c14b0, 0xd57b94a9);
    v' := Turn(ws, 47, v', 0x4172328d, 0xfecf0bc6);
  }

  lemma Rounds6(ws: seq<Word>, v: Vars) returns (v': Vars)
    requires Words6(ws) && Rounds(H0, ws, 48) == v
    requires v == Vars(0x4172328d, 0xa14c14b0, 0x72ab4b91, 0x26628815, 0xfecf0bc6, 0xd57b94a9, 0xb7755da1, 0xa80f11f0)
    ensures Rounds(H0, ws, 56) == v'
    ensures v' == Vars(0x38cc9913, 0x3ec45cdb, 0xf5702fdb, 0x101fd28f, 0x54cb266b, 0xe50e1b4f, 0x9f4787c3, 0x529e7d00)
  {
    Keys6();
    v' := Turn(ws, 48, v, 0x05757ceb, 0xbd714038);
    v' := Turn(ws, 49, v', 0xf11bfaa8, 0x6e5c390c);
    v' := Turn(ws, 50, v', 0x7a0508a1, 0x52f1ccf7);
    v' := Turn(ws, 51, v', 0x886e7a22, 0x49231c1e);
    v' := Turn(ws, 52, v', 0x101fd28f, 0x529e7d00);
    v' := Turn(ws, 53, v', 0xf5702fdb, 0x9f4787c3);
    v' := Turn(ws, 54, v', 0x3ec45cdb, 0xe50e1b4f);
    v' := Turn(ws, 55, v', 0x38cc9913, 0x54cb266b);
  }

  lemma Rounds7(ws: seq<Word>, v: Vars) returns (v': Vars)
    requires Words7(ws) && Rounds(H0, ws, 56) == v
    requires v == Vars(0x38cc9913, 0x3ec45cdb, 0xf5702fdb, 0x101fd28f, 0x54cb266b, 0xe50e1b4f, 0x9f4787c3, 0x529e7d00)
    ensures Rounds(H0, ws, 64) == v'
    ensures v' == Vars(0x506e3058, 0xd39a2165, 0x04d24d6c, 0xb85e2ce9, 0x5ef50f24, 0xfb121210, 0x948d25b6, 0x961f4894)
  {
    Keys7();
    v' := Turn(ws, 56, v, 0xfcd1887b, 0x9b5e906c);
    v' := Turn(ws, 57, v', 0xc062d46f, 0x7e44008e);
    v' := Turn(ws, 58, v', 0xffb70472, 0x6d83bfc6);
    v' := Turn(ws, 59, v', 0xb6ae8fff, 0xb21bad3d);
    v' := Turn(ws, 60, v', 0xb85e2ce9, 0x961f4894);
    v' := Turn(ws, 61, v', 0x04d24d6c, 0x948d25b6);
    v' := Turn(ws, 62, v', 0xd39a2165, 0xfb121210);
    v' := Turn(ws, 63, v', 0x506e3058, 0x5ef50f24);
  }

  // ---------------------------------------------------------------- the digest

  lemma AbcCompressed(ws: seq<Word>)
    requires AbcWords(ws)
    ensures |ws| == 64
    ensures Plus(H0, Rounds(H0, ws, 64)) ==
            Vars(0xba7816bf, 0x8f01cfea, 0x414140de, 0x5dae2223, 0xb00361a3, 0x96177a9c, 0xb410ff61, 0xf20015ad)
  {
    FirstWords(ws);
    NextWords2(ws);
    NextWords3(ws);
    NextWords4(ws);
    NextWords5(ws);
    NextWords6(ws);
    NextWords7(ws);
    assert Rounds(H0, ws, 0) == H0;
    var v := H0;
    v := Rounds0(ws, v);
    v := Rounds1(ws, v);
    v := Rounds2(ws, v);
    v := Rounds3(ws, v);
    v := Rounds4(ws, v);
    v := Rounds5(ws, v);
    v := Rounds6(ws, v);
    v := Rounds7(ws, v);
  }

  /** Four words and what follows them as bytes, most significant first. */
  lemma FourWords(ws: seq<Word>, i: nat)
    requires i + 4 <= |ws|
    ensures BytesOf(ws[i..]) ==
            Bytes(ws[i]) + (Bytes(ws[i + 1]) + (Bytes(ws[i + 2]) + (Bytes(ws[i + 3]) + BytesOf(ws[i + 4..]))))
  {
    BytesNext(ws, i);
    BytesNext(ws, i + 1);
    BytesNext(ws, i + 2);
    BytesNext(ws, i + 3);
  }

  lemma DigestWords(v: Vars)
    ensures Digest(v) == Bytes(v.a) + (Bytes(v.b) + (Bytes(v.c) + (Bytes(v.d)
                         + (Bytes(v.e) + (Bytes(v.f) + (Bytes(v.g) + (Bytes(v.h) + [])))))))
  {
    var ws := WordsIn(v);
    assert ws[0..] == ws;
    FourWords(ws, 0);
    FourWords(ws, 4);
    assert BytesOf(ws[8..]) == [];
  }

  lemma BytesNext(ws: seq<Word>, i: nat)
    requires i < |ws|
    ensures BytesOf(ws[i..]) == Bytes(ws[i]) + BytesOf(ws[i + 1..])
  {
    assert ws[i..][1..] == ws[i + 1..];
  }

  const ABC_DIGEST: seq<Byte> := [
    0xba, 0x78, 0x16, 0xbf, 0x8f, 0x01, 0xcf, 0xea, 0x41, 0x41, 0x40, 0xde, 0x5d, 0xae, 0x22, 0x23,
    0xb0, 0x03, 0x61, 0xa3, 0x96, 0x17, 0x7a, 0x9c, 0xb4, 0x10, 0xff, 0x61, 0xf2, 0x00, 0x15, 0xad]

  lemma AbcBytes(v: Vars)
    requires v == Vars(0xba7816bf, 0x8f01cfea, 0x414140de, 0x5dae2223, 0xb00361a3, 0x96177a9c, 0xb410ff61, 0xf20015ad)
    ensures Digest(v) == ABC_DIGEST
  {
    DigestWords(v);
  }

  /** The digest of a message that pads to one block. */
  lemma OneBlock(m: seq<Byte>, ws: seq<Word>)
    requires 8 * |m| < 0x1_0000_0000_0000_0000 && |Pad(m)| == 64 && ws == Words(Pad(m))
    ensures |ws| == 64 && Hash(m) == Digest(Plus(H0, Rounds(H0, ws, 64)))
  {
    var p := Pad(m);
    assert Block(p, 0) == p;
    assert HashOf(Compress, p, 0) == H0;
    assert HashOf(Compress, p, 1) == Compress(H0, p);
  }

  /** SHA-256 of "abc" is ba7816bf 8f01cfea 414140de 5dae2223 b00361a3 96177a9c b410ff61 f20015ad. */
  lemma AbcDigest()
    ensures Hash(ABC) == ABC_DIGEST
  {
    AbcPadded();
    var ws := Words(Pad(ABC));
    OneBlock(ABC, ws);
    AbcCompressed(ws);
    AbcBytes(Plus(H0, Rounds(H0, ws, 64)));
  }

  // ---------------------------------------------------------------- where the constants come from

  /** k holds the first 32 bits of the fractional part of the cube root of p, whose whole part is c (section 4.2.2). */
  predicate CubeRoot(p: nat, c: nat, k: Word) {
    var x := c * 0x1_0000_0000 + k as int;
    x * x * x <= p * 0x1_0000_0000_0000_0000_0000_0000 < (x + 1) * (x + 1) * (x + 1)
  }

  /** The same for the square root (section 5.3.3). */
  predicate SquareRoot(p: nat, c: nat, k: Word) {
    var x := c * 0x1_0000_0000 + k as int;
    x * x <= p * 0x1_0000_0000_0000_0000 < (x + 1) * (x + 1)
  }

  lemma InitialRoots()
    ensures SquareRoot(2, 1, H0.a) && SquareRoot(3, 1, H0.b) && SquareRoot(5, 2, H0.c) && SquareRoot(7, 2, H0.d)
    ensures SquareRoot(11, 3, H0.e) && SquareRoot(13, 3, H0.f) && SquareRoot(17, 4, H0.g) && SquareRoot(19, 4, H0.h)
  {}

  lemma KeyRoots0()
    ensures CubeRoot(2, 1, K[0]) && CubeRoot(3, 1, K[1]) && CubeRoot(5, 1, K[2]) && CubeRoot(7, 1, K[3])
  {
    Keys0();
  }

  lemma KeyRoots1()
    ensures CubeRoot(11, 2, K[4]) && CubeRoot(13, 2, K[5]) && CubeRoot(17, 2, K[6]) && CubeRoot(19, 2, K[7])
  {
    Keys0();
  }

  lemma KeyRoots2()
    ensures CubeRoot(23, 2, K[8]) && CubeRoot(29, 3, K[9]) && CubeRoot(31, 3, K[10]) && CubeRoot(37, 3, K[11])
  {
    Keys1();
  }

  lemma KeyRoots3()
    ensures CubeRoot(41, 3, K[12]) && CubeRoot(43, 3, K[13]) && CubeRoot(47, 3, K[14]) && CubeRoot(53, 3, K[15])
  {
    Keys1();
  }

  lemma KeyRoots4()
    ensures CubeRoot(59, 3, K[16]) && CubeRoot(61, 3, K[17]) && CubeRoot(67, 4, K[18]) && CubeRoot(71, 4, K[19])
  {
    Keys2();
  }

  lemma KeyRoots5()
    ensures CubeRoot(73, 4, K[20]) && CubeRoot(79, 4, K[21]) && CubeRoot(83, 4, K[22]) && CubeRoot(89, 4, K[23])
  {
    Keys2();
  }

  lemma KeyRoots6()
    ensures CubeRoot(97, 4, K[24]) && CubeRoot(101, 4, K[25]) && CubeRoot(103, 4, K[26]) && CubeRoot(107, 4, K[27])
  {
    Keys3();
  }

  lemma KeyRoots7()
    ensures CubeRoot(109, 4, K[28]) && CubeRoot(113, 4, K[29]) && CubeRoot(127, 5, K[30]) && CubeRoot(131, 5, K[31])
  {
    Keys3();
  }

  lemma KeyRoots8()
    ensures CubeRoot(137, 5, K[32]) && CubeRoot(139, 5, K[33]) && CubeRoot(149, 5, K[34]) && CubeRoot(151, 5, K[35])
  {
    Keys4();
  }

  lemma KeyRoots9()
    ensures CubeRoot(157, 5, K[36]) && CubeRoot(163, 5, K[37]) && CubeRoot(167, 5, K[38]) && CubeRoot(173, 5, K[39])
  {
    Keys4();
  }

  lemma KeyRoots10()
    ensures CubeRoot(179, 5, K[40]) && CubeRoot(181, 5, K[41]) && CubeRoot(191, 5, K[42]) && CubeRoot(193, 5, K[43])
  {
    Keys5();
  }

  lemma KeyRoots11()
    ensures CubeRoot(197, 5, K[44]) && CubeRoot(199, 5, K[45]) && CubeRoot(211, 5, K[46]) && CubeRoot(223, 6, K[47])
  {
    Keys5();
  }

  lemma KeyRoots12()
    ensures CubeRoot(227, 6, K[48]) && CubeRoot(229, 6, K[49]) && CubeRoot(233, 6, K[50]) && CubeRoot(239, 6, K[51])
  {
    Keys6();
  }

  lemma KeyRoots13()
    ensures CubeRoot(241, 6, K[52]) && CubeRoot(251, 6, K[53]) && CubeRoot(257, 6, K[54]) && CubeRoot(263, 6, K[55])
  {
    Keys6();
  }

  lemma KeyRoots14()
    ensures CubeRoot(269, 6, K[56]) && CubeRoot(271, 6, K[57]) && CubeRoot(277, 6, K[58]) && CubeRoot(281, 6, K[59])
  {
    Keys7();
  }

  lemma KeyRoots15()
    ensures CubeRoot(283, 6, K[60]) && CubeRoot(293, 6, K[61]) && CubeRoot(307, 6, K[62]) && CubeRoot(311, 6, K[63])
  {
    Keys7();
  }
}
