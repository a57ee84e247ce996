/**
 One digest from beginning to end: SHA-1 of the text "abc", as the examples for FIPS 180-4 give it. It fixes every
 constant, function, rotation and order of bytes of the definition. And where the four constants come from.
 */
module Sha1Example {
  import opened Common
  import opened Sha1Spec

  /** The number whose root the constant of a round is taken from. */
  function Radicand(t: nat): nat {
    if t < 20 then 2 else if t < 40 then 3 else if t < 60 then 5 else 10
  }

  /** Each constant is the whole part of 2^30 times a square root. */
  lemma ConstantIsRoot(t: nat)
    ensures var k := K(t) as nat;
            k * k <= Radicand(t) * 0x1000_0000_0000_0000 < (k + 1) * (k + 1)
  {}

  // ----- The message schedule -------------------------------------------------------------------------------------

  /** "abc", one bit, zeros, and the length in bits. */
  lemma PaddedText()
    ensures |Pad([0x61, 0x62, 0x63])| == 64
    ensures forall k | 0 <= k < 64 ::
              Pad([0x61, 0x62, 0x63])[k] ==
              if k == 0 then 0x61 else if k == 1 then 0x62 else if k == 2 then 0x63 else if k == 3 then 0x80
              else if k == 63 then 0x18 else 0
  {
    ZeroBytes(7);
    assert BigEndian(24, 8) == BigEndian(0, 7) + [LowByte(24)];
  }

  lemma {:induction false} ZeroBytes(k: nat)
    ensures BigEndian(0, k) == Zeros(k)
  {
    if k > 0 {
      ZeroBytes(k - 1);
    }
  }

  lemma ZeroWord(block: seq<byte>, t: nat)
    requires |block| == 64 && t < 16 && forall k | 4 * t <= k < 4 * t + 4 :: block[k] == 0
    ensures Schedule(block, t) == 0
  {}

  lemma OuterWords(block: seq<byte>)
    requires |block| == 64 && block[0] == 0x61 && block[1] == 0x62 && block[2] == 0x63 && block[3] == 0x80
    requires block[60] == block[61] == block[62] == 0 && block[63] == 0x18
    ensures Schedule(block, 0) == 0x6162_6380 && Schedule(block, 15) == 0x0000_0018
  {}

  lemma FirstWords(block: seq<byte>)
    requires |block| == 64 && block == Pad([0x61, 0x62, 0x63])

    ensures Schedule(block, 0) == 0x6162_6380 && Schedule(block, 1) == 0x0000_0000
    ensures Schedule(block, 2) == 0x0000_0000 && Schedule(block, 3) == 0x0000_0000
    ensures Schedule(block, 4) == 0x0000_0000 && Schedule(block, 5) == 0x0000_0000
    ensures Schedule(block, 6) == 0x0000_0000 && Schedule(block, 7) == 0x0000_0000
    ensures Schedule(block, 8) == 0x0000_0000 && Schedule(block, 9) == 0x0000_0000
    ensures Schedule(block, 10) == 0x0000_0000 && Schedule(block, 11) == 0x0000_0000
    ensures Schedule(block, 12) == 0x0000_0000 && Schedule(block, 13) == 0x0000_0000
    ensures Schedule(block, 14) == 0x0000_0000 && Schedule(block, 15) == 0x0000_0018
  {
    hide Pad, Schedule;
    PaddedText();
    OuterWords(block);
    ZeroWord(block, 1);
    ZeroWord(block, 2);
    ZeroWord(block, 3);
    ZeroWord(block, 4);
    ZeroWord(block, 5);
    ZeroWord(block, 6);
    ZeroWord(block, 7);
    ZeroWord(block, 8);
    ZeroWord(block, 9);
    ZeroWord(block, 10);
    ZeroWord(block, 11);
    ZeroWord(block, 12);
    ZeroWord(block, 13);
    ZeroWord(block, 14);
  }

  lemma Words16(block: seq<byte>)
    requires |block| == 64
    requires Schedule(block, 0) == 0x6162_6380 && Schedule(block, 1) == 0x0000_0000
    requires Schedule(block, 2) == 0x0000_0000 && Schedule(block, 3) == 0x0000_0000
    requires Schedule(block, 4) == 0x0000_0000 && Schedule(block, 5) == 0x0000_0000
    requires Schedule(block, 6) == 0x0000_0000 && Schedule(block, 7) == 0x0000_0000
    requires Schedule(block, 8) == 0x0000_0000 && Schedule(block, 9) == 0x0000_0000
    requires Schedule(block, 10) == 0x0000_0000 && Schedule(block, 11) == 0x0000_0000
    requires Schedule(block, 12) == 0x0000_0000 && Schedule(block, 13) == 0x0000_0000
    requires Schedule(block, 14) == 0x0000_0000 && Schedule(block, 15) == 0x0000_0018
    ensures Schedule(block, 16) == 0xc2c4_c700 && Schedule(block, 17) == 0x0000_0000
    ensures Schedule(block, 18) == 0x0000_0030 && Schedule(block, 19) == 0x8589_8e01
    ensures Schedule(block, 20) == 0x0000_0000 && Schedule(block, 21) == 0x0000_0060
    ensures Schedule(block, 22) == 0x0b13_1c03 && Schedule(block, 23) == 0x0000_0030
    ensures Schedule(block, 24) == 0x8589_8ec1 && Schedule(block, 25) == 0x1626_3806
    ensures Schedule(block, 26) == 0x0000_0000 && Schedule(block, 27) == 0x0000_0180
    ensures Schedule(block, 28) == 0x2c4c_700c && Schedule(block, 29) == 0x0000_00f0
    ensures Schedule(block, 30) == 0x93af_b507 && Schedule(block, 31) == 0x5898_e048
  {
    hide WordAt;
    assert Schedule(block, 16) == 0xc2c4_c700;
    assert Schedule(block, 17) == 0x0000_0000;
    assert Schedule(block, 18) == 0x0000_0030;
    assert Schedule(block, 19) == 0x8589_8e01;
    assert Schedule(block, 20) == 0x0000_0000;
    assert Schedule(block, 21) == 0x0000_0060;
    assert Schedule(block, 22) == 0x0b13_1c03;
    assert Schedule(block, 23) == 0x0000_0030;
    assert Schedule(block, 24) == 0x8589_8ec1;
    assert Schedule(block, 25) == 0x1626_3806;
    assert Schedule(block, 26) == 0x0000_0000;
    assert Schedule(block, 27) == 0x0000_0180;
    assert Schedule(block, 28) == 0x2c4c_700c;
    assert Schedule(block, 29) == 0x0000_00f0;
    assert Schedule(block, 30) == 0x93af_b507;
    assert Schedule(block, 31) == 0x5898_e048;
  }

  lemma Words32(block: seq<byte>)
    requires |block| == 64
    requires Schedule(block, 16) == 0xc2c4_c700 && Schedule(block, 17) == 0x0000_0000
    requires Schedule(block, 18) == 0x0000_0030 && Schedule(block, 19) == 0x8589_8e01
    requires Schedule(block, 20) == 0x0000_0000 && Schedule(block, 21) == 0x0000_0060
    requires Schedule(block, 22) == 0x0b13_1c03 && Schedule(block, 23) == 0x0000_0030
    requires Schedule(block, 24) == 0x8589_8ec1 && Schedule(block, 25) == 0x1626_3806
    requires Schedule(block, 26) == 0x0000_0000 && Schedule(block, 27) == 0x0000_0180
    requires Schedule(block, 28) == 0x2c4c_700c && Schedule(block, 29) == 0x0000_00f0
    requires Schedule(block, 30) == 0x93af_b507 && Schedule(block, 31) == 0x5898_e048
    ensures Schedule(block, 32) == 0x8e9a_9202 && Schedule(block, 33) == 0x0000_0600
    ensures Schedule(block, 34) == 0xb131_c0f0 && Schedule(block, 35) == 0x1626_3bc6
    ensures Schedule(block, 36) == 0x4ebe_d41e && Schedule(block, 37) == 0x6263_80a1
    ensures Schedule(block, 38) == 0x1626_3806 && Schedule(block, 39) == 0x0000_18c0
    ensures Schedule(block, 40) == 0xd2e1_38c4 && Schedule(block, 41) == 0x0000_0f00
    ensures Schedule(block, 42) == 0x3afb_5079 && Schedule(block, 43) == 0x898e_04e5
    ensures Schedule(block, 44) == 0xe2ba_3c2b && Schedule(block, 45) == 0x0000_60c0
    ensures Schedule(block, 46) == 0x053a_37cd && Schedule(block, 47) == 0x7445_8547
  {
    hide WordAt;
    assert Schedule(block, 32) == 0x8e9a_9202;
    assert Schedule(block, 33) == 0x0000_0600;
    assert Schedule(block, 34) == 0xb131_c0f0;
    assert Schedule(block, 35) == 0x1626_3bc6;
    assert Schedule(block, 36) == 0x4ebe_d41e;
    assert Schedule(block, 37) == 0x6263_80a1;
    assert Schedule(block, 38) == 0x1626_3806;
    assert Schedule(block, 39) == 0x0000_18c0;
    assert Schedule(block, 40) == 0xd2e1_38c4;
    assert Schedule(block, 41) == 0x0000_0f00;
    assert Schedule(block, 42) == 0x3afb_5079;
    assert Schedule(block, 43) == 0x898e_04e5;
    assert Schedule(block, 44) == 0xe2ba_3c2b;
    assert Schedule(block, 45) == 0x0000_60c0;
    assert Schedule(block, 46) == 0x053a_37cd;
    assert Schedule(block, 47) == 0x7445_8547;
  }

  lemma Words48(block: seq<byte>)
    requires |block| == 64
    requires Schedule(block, 32) == 0x8e9a_9202 && Schedule(block, 33) == 0x0000_0600
    requires Schedule(block, 34) == 0xb131_c0f0 && Schedule(block, 35) == 0x1626_3bc6
    requires Schedule(block, 36) == 0x4ebe_d41e && Schedule(block, 37) == 0x6263_80a1
    requires Schedule(block, 38) == 0x1626_3806 && Schedule(block, 39) == 0x0000_18c0
    requires Schedule(block, 40) == 0xd2e1_38c4 && Schedule(block, 41) == 0x0000_0f00
    requires Schedule(block, 42) == 0x3afb_5079 && Schedule(block, 43) == 0x898e_04e5
    requires Schedule(block, 44) == 0xe2ba_3c2b && Schedule(block, 45) == 0x0000_60c0
    requires Schedule(block, 46) == 0x053a_37cd && Schedule(block, 47) == 0x7445_8547
    ensures Schedule(block, 48) == 0xda94_15ed && Schedule(block, 49) == 0x2638_0a16
    ensures Schedule(block, 50) == 0x6263_83a1 && Schedule(block, 51) == 0x4ebf_54de
    ensures Schedule(block, 52) == 0x3835_b44b && Schedule(block, 53) == 0x0000_f600
    ensures Schedule(block, 54) == 0x1e84_c7a3 && Schedule(block, 55) == 0x98e0_4d98
    ensures Schedule(block, 56) == 0x651d_16a0 && Schedule(block, 57) == 0x6265_8ca1
    ensures Schedule(block, 58) == 0x4585_44d6 && Schedule(block, 59) == 0x4458_4cb7
    ensures Schedule(block, 60) == 0x7ba0_6619 && Schedule(block, 61) == 0x6380_aea2
    ensures Schedule(block, 62) == 0x0ae5_5269 && Schedule(block, 63) == 0x627b_49a1
  {
    hide WordAt;
    assert Schedule(block, 48) == 0xda94_15ed;
    assert Schedule(block, 49) == 0x2638_0a16;
    assert Schedule(block, 50) == 0x6263_83a1;
    assert Schedule(block, 51) == 0x4ebf_54de;
    assert Schedule(block, 52) == 0x3835_b44b;
    assert Schedule(block, 53) == 0x0000_f600;
    assert Schedule(block, 54) == 0x1e84_c7a3;
    assert Schedule(block, 55) == 0x98e0_4d98;
    assert Schedule(block, 56) == 0x651d_16a0;
    assert Schedule(block, 57) == 0x6265_8ca1;
    assert Schedule(block, 58) == 0x4585_44d6;
    assert Schedule(block, 59) == 0x4458_4cb7;
    assert Schedule(block, 60) == 0x7ba0_6619;
    assert Schedule(block, 61) == 0x6380_aea2;
    assert Schedule(block, 62) == 0x0ae5_5269;
    assert Schedule(block, 63) == 0x627b_49a1;
  }

  lemma Words64(block: seq<byte>)
    requires |block| == 64
    requires Schedule(block, 48) == 0xda94_15ed && Schedule(block, 49) == 0x2638_0a16
    requires Schedule(block, 50) == 0x6263_83a1 && Schedule(block, 51) == 0x4ebf_54de
    requires Schedule(block, 52) == 0x3835_b44b && Schedule(block, 53) == 0x0000_f600
    requires Schedule(block, 54) == 0x1e84_c7a3 && Schedule(block, 55) == 0x98e0_4d98
    requires Schedule(block, 56) == 0x651d_16a0 && Schedule(block, 57) == 0x6265_8ca1
    requires Schedule(block, 58) == 0x4585_44d6 && Schedule(block, 59) == 0x4458_4cb7
    requires Schedule(block, 60) == 0x7ba0_6619 && Schedule(block, 61) == 0x6380_aea2
    requires Schedule(block, 62) == 0x0ae5_5269 && Schedule(block, 63) == 0x627b_49a1
    ensures Schedule(block, 64) == 0x7cd4_5c9d && Schedule(block, 65) == 0x000f_0000
    ensures Schedule(block, 66) == 0xfb50_753a && Schedule(block, 67) == 0xec67_65e8
    ensures Schedule(block, 68) == 0xba3c_2be2 && Schedule(block, 69) == 0x0060_c000
    ensures Schedule(block, 70) == 0x3a37_cd05 && Schedule(block, 71) == 0x4585_46f4
    ensures Schedule(block, 72) == 0xb859_9dd6 && Schedule(block, 73) == 0x380a_1a26
    ensures Schedule(block, 74) == 0x01e0_2203 && Schedule(block, 75) == 0xe7cc_3456
    ensures Schedule(block, 76) == 0xe6e6_0b69 && Schedule(block, 77) == 0x00f6_0a00
    ensures Schedule(block, 78) == 0x5795_ef4f && Schedule(block, 79) == 0x822e_0879
  {
    hide WordAt;
    assert Schedule(block, 64) == 0x7cd4_5c9d;
    assert Schedule(block, 65) == 0x000f_0000;
    assert Schedule(block, 66) == 0xfb50_753a;
    assert Schedule(block, 67) == 0xec67_65e8;
    assert Schedule(block, 68) == 0xba3c_2be2;
    assert Schedule(block, 69) == 0x0060_c000;
    assert Schedule(block, 70) == 0x3a37_cd05;
    assert Schedule(block, 71) == 0x4585_46f4;
    assert Schedule(block, 72) == 0xb859_9dd6;
    assert Schedule(block, 73) == 0x380a_1a26;
    assert Schedule(block, 74) == 0x01e0_2203;
    assert Schedule(block, 75) == 0xe7cc_3456;
    assert Schedule(block, 76) == 0xe6e6_0b69;
    assert Schedule(block, 77) == 0x00f6_0a00;
    assert Schedule(block, 78) == 0x5795_ef4f;
    assert Schedule(block, 79) == 0x822e_0879;
  }

  // ----- The rounds -----------------------------------------------------------------------------------------------

  lemma Rounds8(w: seq<word>)
    requires |w| == 80
    requires Rounds(H0, w, 0) == Five(0x6745_2301, 0xefcd_ab89, 0x98ba_dcfe, 0x1032_5476, 0xc3d2_e1f0)
    requires w[0] == 0x6162_6380 && w[1] == 0x0000_0000 && w[2] == 0x0000_0000 && w[3] == 0x0000_0000
    requires w[4] == 0x0000_0000 && w[5] == 0x0000_0000 && w[6] == 0x0000_0000 && w[7] == 0x0000_0000
    ensures Rounds(H0, w, 8) == Five(0x9e8c_07d4, 0x993e_30c1, 0x0ff1_f290, 0xb3f5_2677, 0xf376_3846)
  {
    hide Rounds;
    var v := Five(0x6745_2301, 0xefcd_ab89, 0x98ba_dcfe, 0x1032_5476, 0xc3d2_e1f0);
    v := NextRound(w, 0, v, Five(0x0116_fc33, 0x6745_2301, 0x7bf3_6ae2, 0x98ba_dcfe, 0x1032_5476));
    v := NextRound(w, 1, v, Five(0x8990_536d, 0x0116_fc33, 0x59d1_48c0, 0x7bf3_6ae2, 0x98ba_dcfe));
    v := NextRound(w, 2, v, Five(0xa139_0f08, 0x8990_536d, 0xc045_bf0c, 0x59d1_48c0, 0x7bf3_6ae2));
    v := NextRound(w, 3, v, Five(0xcdd8_e11b, 0xa139_0f08, 0x6264_14db, 0xc045_bf0c, 0x59d1_48c0));
    v := NextRound(w, 4, v, Five(0xcfd4_99de, 0xcdd8_e11b, 0x284e_43c2, 0x6264_14db, 0xc045_bf0c));
    v := NextRound(w, 5, v, Five(0x3fc7_ca40, 0xcfd4_99de, 0xf376_3846, 0x284e_43c2, 0x6264_14db));
    v := NextRound(w, 6, v, Five(0x993e_30c1, 0x3fc7_ca40, 0xb3f5_2677, 0xf376_3846, 0x284e_43c2));
    v := NextRound(w, 7, v, Five(0x9e8c_07d4, 0x993e_30c1, 0x0ff1_f290, 0xb3f5_2677, 0xf376_3846));
  }

  lemma Rounds16(w: seq<word>)
    requires |w| == 80
    requires Rounds(H0, w, 8) == Five(0x9e8c_07d4, 0x993e_30c1, 0x0ff1_f290, 0xb3f5_2677, 0xf376_3846)
    requires w[8] == 0x0000_0000 && w[9] == 0x0000_0000 && w[10] == 0x0000_0000 && w[11] == 0x0000_0000
    requires w[12] == 0x0000_0000 && w[13] == 0x0000_0000 && w[14] == 0x0000_0000 && w[15] == 0x0000_0018
    ensures Rounds(H0, w, 16) == Five(0x20bd_d62f, 0x196b_ee77, 0x644a_3da5, 0x1181_ed99, 0x18c6_23f9)
  {
    hide Rounds;
    var v := Five(0x9e8c_07d4, 0x993e_30c1, 0x0ff1_f290, 0xb3f5_2677, 0xf376_3846);
    v := NextRound(w, 8, v, Five(0x4b6a_e328, 0x9e8c_07d4, 0x664f_8c30, 0x0ff1_f290, 0xb3f5_2677));
    v := NextRound(w, 9, v, Five(0x8351_f929, 0x4b6a_e328, 0x27a3_01f5, 0x664f_8c30, 0x0ff1_f290));
    v := NextRound(w, 10, v, Five(0xfbda_9e89, 0x8351_f929, 0x12da_b8ca, 0x27a3_01f5, 0x664f_8c30));
    v := NextRound(w, 11, v, Five(0x6318_8fe4, 0xfbda_9e89, 0x60d4_7e4a, 0x12da_b8ca, 0x27a3_01f5));
    v := NextRound(w, 12, v, Five(0x4607_b664, 0x6318_8fe4, 0x7ef6_a7a2, 0x60d4_7e4a, 0x12da_b8ca));
    v := NextRound(w, 13, v, Five(0x9128_f695, 0x4607_b664, 0x18c6_23f9, 0x7ef6_a7a2, 0x60d4_7e4a));
    v := NextRound(w, 14, v, Five(0x196b_ee77, 0x9128_f695, 0x1181_ed99, 0x18c6_23f9, 0x7ef6_a7a2));
    v := NextRound(w, 15, v, Five(0x20bd_d62f, 0x196b_ee77, 0x644a_3da5, 0x1181_ed99, 0x18c6_23f9));
  }

  lemma Rounds24(w: seq<word>)
    requires |w| == 80
    requires Rounds(H0, w, 16) == Five(0x20bd_d62f, 0x196b_ee77, 0x644a_3da5, 0x1181_ed99, 0x18c6_23f9)
    requires w[16] == 0xc2c4_c700 && w[17] == 0x0000_0000 && w[18] == 0x0000_0030 && w[19] == 0x8589_8e01
    requires w[20] == 0x0000_0000 && w[21] == 0x0000_0060 && w[22] == 0x0b13_1c03 && w[23] == 0x0000_0030
    ensures Rounds(H0, w, 24) == Five(0xd541_f12d, 0x2128_3486, 0x0ce8_8eff, 0x868d_ec32, 0x7f67_875f)
  {
    hide Rounds;
    var v := Five(0x20bd_d62f, 0x196b_ee77, 0x644a_3da5, 0x1181_ed99, 0x18c6_23f9);
    v := NextRound(w, 16, v, Five(0x4e92_5823, 0x20bd_d62f, 0xc65a_fb9d, 0x644a_3da5, 0x1181_ed99));
    v := NextRound(w, 17, v, Five(0x82aa_6728, 0x4e92_5823, 0xc82f_758b, 0xc65a_fb9d, 0x644a_3da5));
    v := NextRound(w, 18, v, Five(0xdc64_901d, 0x82aa_6728, 0xd3a4_9608, 0xc82f_758b, 0xc65a_fb9d));
    v := NextRound(w, 19, v, Five(0xfd9e_1d7d, 0xdc64_901d, 0x20aa_99ca, 0xd3a4_9608, 0xc82f_758b));
    v := NextRound(w, 20, v, Five(0x1a37_b0ca, 0xfd9e_1d7d, 0x7719_2407, 0x20aa_99ca, 0xd3a4_9608));
    v := NextRound(w, 21, v, Five(0x33a2_3bfc, 0x1a37_b0ca, 0x7f67_875f, 0x7719_2407, 0x20aa_99ca));
    v := NextRound(w, 22, v, Five(0x2128_3486, 0x33a2_3bfc, 0x868d_ec32, 0x7f67_875f, 0x7719_2407));
    v := NextRound(w, 23, v, Five(0xd541_f12d, 0x2128_3486, 0x0ce8_8eff, 0x868d_ec32, 0x7f67_875f));
  }

  lemma Rounds32(w: seq<word>)
    requires |w| == 80
    requires Rounds(H0, w, 24) == Five(0xd541_f12d, 0x2128_3486, 0x0ce8_8eff, 0x868d_ec32, 0x7f67_875f)
    requires w[24] == 0x8589_8ec1 && w[25] == 0x1626_3806 && w[26] == 0x0000_0000 && w[27] == 0x0000_0180
    requires w[28] == 0x2c4c_700c && w[29] == 0x0000_00f0 && w[30] == 0x93af_b507 && w[31] == 0x5898_e048
    ensures Rounds(H0, w, 32) == Five(0x3b84_5d33, 0x1267_b407, 0x717e_ebd7, 0xa0dc_2d4b, 0xd2aa_1365)
  {
    hide Rounds;
    var v := Five(0xd541_f12d, 0x2128_3486, 0x0ce8_8eff, 0x868d_ec32, 0x7f67_875f);
    v := NextRound(w, 24, v, Five(0xc756_7dc6, 0xd541_f12d, 0x884a_0d21, 0x0ce8_8eff, 0x868d_ec32));
    v := NextRound(w, 25, v, Five(0x4841_3ba4, 0xc756_7dc6, 0x7550_7c4b, 0x884a_0d21, 0x0ce8_8eff));
    v := NextRound(w, 26, v, Five(0xbe35_fbd5, 0x4841_3ba4, 0xb1d5_9f71, 0x7550_7c4b, 0x884a_0d21));
    v := NextRound(w, 27, v, Five(0x4aa8_4d97, 0xbe35_fbd5, 0x1210_4ee9, 0xb1d5_9f71, 0x7550_7c4b));
    v := NextRound(w, 28, v, Five(0x8370_b52e, 0x4aa8_4d97, 0x6f8d_7ef5, 0x1210_4ee9, 0xb1d5_9f71));
    v := NextRound(w, 29, v, Five(0xc5fb_af5d, 0x8370_b52e, 0xd2aa_1365, 0x6f8d_7ef5, 0x1210_4ee9));
    v := NextRound(w, 30, v, Five(0x1267_b407, 0xc5fb_af5d, 0xa0dc_2d4b, 0xd2aa_1365, 0x6f8d_7ef5));
    v := NextRound(w, 31, v, Five(0x3b84_5d33, 0x1267_b407, 0x717e_ebd7, 0xa0dc_2d4b, 0xd2aa_1365));
  }

  lemma Rounds40(w: seq<word>)
    requires |w| == 80
    requires Rounds(H0, w, 32) == Five(0x3b84_5d33, 0x1267_b407, 0x717e_ebd7, 0xa0dc_2d4b, 0xd2aa_1365)
    requires w[32] == 0x8e9a_9202 && w[33] == 0x0000_0600 && w[34] == 0xb131_c0f0 && w[35] == 0x1626_3bc6
    requires w[36] == 0x4ebe_d41e && w[37] == 0x6263_80a1 && w[38] == 0x1626_3806 && w[39] == 0x0000_18c0
    ensures Rounds(H0, w, 40) == Five(0x32de_1cba, 0x4c98_6405, 0xf718_e5cf, 0x03d4_47f6, 0xf72e_ec32)
  {
    hide Rounds;
    var v := Five(0x3b84_5d33, 0x1267_b407, 0x717e_ebd7, 0xa0dc_2d4b, 0xd2aa_1365);
    v := NextRound(w, 32, v, Five(0x046f_aa0a, 0x3b84_5d33, 0xc499_ed01, 0x717e_ebd7, 0xa0dc_2d4b));
    v := NextRound(w, 33, v, Five(0x2c0e_bc11, 0x046f_aa0a, 0xcee1_174c, 0xc499_ed01, 0x717e_ebd7));
    v := NextRound(w, 34, v, Five(0x2179_6ad4, 0x2c0e_bc11, 0x811b_ea82, 0xcee1_174c, 0xc499_ed01));
    v := NextRound(w, 35, v, Five(0xdcbb_b0cb, 0x2179_6ad4, 0x4b03_af04, 0x811b_ea82, 0xcee1_174c));
    v := NextRound(w, 36, v, Five(0x0f51_1fd8, 0xdcbb_b0cb, 0x085e_5ab5, 0x4b03_af04, 0x811b_ea82));
    v := NextRound(w, 37, v, Five(0xdc63_973f, 0x0f51_1fd8, 0xf72e_ec32, 0x085e_5ab5, 0x4b03_af04));
    v := NextRound(w, 38, v, Five(0x4c98_6405, 0xdc63_973f, 0x03d4_47f6, 0xf72e_ec32, 0x085e_5ab5));
    v := NextRound(w, 39, v, Five(0x32de_1cba, 0x4c98_6405, 0xf718_e5cf, 0x03d4_47f6, 0xf72e_ec32));
  }

  lemma Rounds48(w: seq<word>)
    requires |w| == 80
    requires Rounds(H0, w, 40) == Five(0x32de_1cba, 0x4c98_6405, 0xf718_e5cf, 0x03d4_47f6, 0xf72e_ec32)
    requires w[40] == 0xd2e1_38c4 && w[41] == 0x0000_0f00 && w[42] == 0x3afb_5079 && w[43] == 0x898e_04e5
    requires w[44] == 0xe2ba_3c2b && w[45] == 0x0000_60c0 && w[46] == 0x053a_37cd && w[47] == 0x7445_8547
    ensures Rounds(H0, w, 48) == Five(0xbead_02ca, 0xa01b_846c, 0x8714_787c, 0x503c_a382, 0xfb86_c6ab)
  {
    hide Rounds;
    var v := Five(0x32de_1cba, 0x4c98_6405, 0xf718_e5cf, 0x03d4_47f6, 0xf72e_ec32);
    v := NextRound(w, 40, v, Five(0xfc87_dedf, 0x32de_1cba, 0x5326_1901, 0xf718_e5cf, 0x03d4_47f6));
    v := NextRound(w, 41, v, Five(0x970a_0d5c, 0xfc87_dedf, 0x8cb7_872e, 0x5326_1901, 0xf718_e5cf));
    v := NextRound(w, 42, v, Five(0x7f19_3dc5, 0x970a_0d5c, 0xff21_f7b7, 0x8cb7_872e, 0x5326_1901));
    v := NextRound(w, 43, v, Five(0xee1b_1aaf, 0x7f19_3dc5, 0x25c2_8357, 0xff21_f7b7, 0x8cb7_872e));
    v := NextRound(w, 44, v, Five(0x40f2_8e09, 0xee1b_1aaf, 0x5fc6_4f71, 0x25c2_8357, 0xff21_f7b7));
    v := NextRound(w, 45, v, Five(0x1c51_e1f2, 0x40f2_8e09, 0xfb86_c6ab, 0x5fc6_4f71, 0x25c2_8357));
    v := NextRound(w, 46, v, Five(0xa01b_846c, 0x1c51_e1f2, 0x503c_a382, 0xfb86_c6ab, 0x5fc6_4f71));
    v := NextRound(w, 47, v, Five(0xbead_02ca, 0xa01b_846c, 0x8714_787c, 0x503c_a382, 0xfb86_c6ab));
  }

  lemma Rounds56(w: seq<word>)
    requires |w| == 80
    requires Rounds(H0, w, 48) == Five(0xbead_02ca, 0xa01b_846c, 0x8714_787c, 0x503c_a382, 0xfb86_c6ab)
    requires w[48] == 0xda94_15ed && w[49] == 0x2638_0a16 && w[50] == 0x6263_83a1 && w[51] == 0x4ebf_54de
    requires w[52] == 0x3835_b44b && w[53] == 0x0000_f600 && w[54] == 0x1e84_c7a3 && w[55] == 0x98e0_4d98
    ensures Rounds(H0, w, 56) == Five(0x5e64_56af, 0x7b71_f76d, 0x09fa_7c76, 0x7924_10db, 0x8e11_eb59)
  {
    hide Rounds;
    var v := Five(0xbead_02ca, 0xa01b_846c, 0x8714_787c, 0x503c_a382, 0xfb86_c6ab);
    v := NextRound(w, 48, v, Five(0xbaf3_9337, 0xbead_02ca, 0x2806_e11b, 0x8714_787c, 0x503c_a382));
    v := NextRound(w, 49, v, Five(0x1207_31c5, 0xbaf3_9337, 0xafab_40b2, 0x2806_e11b, 0x8714_787c));
    v := NextRound(w, 50, v, Five(0x641d_b2ce, 0x1207_31c5, 0xeebc_e4cd, 0xafab_40b2, 0x2806_e11b));
    v := NextRound(w, 51, v, Five(0x3847_ad66, 0x641d_b2ce, 0x4481_cc71, 0xeebc_e4cd, 0xafab_40b2));
    v := NextRound(w, 52, v, Five(0xe490_436d, 0x3847_ad66, 0x9907_6cb3, 0x4481_cc71, 0xeebc_e4cd));
    v := NextRound(w, 53, v, Five(0x27e9_f1d8, 0xe490_436d, 0x8e11_eb59, 0x9907_6cb3, 0x4481_cc71));
    v := NextRound(w, 54, v, Five(0x7b71_f76d, 0x27e9_f1d8, 0x7924_10db, 0x8e11_eb59, 0x9907_6cb3));
    v := NextRound(w, 55, v, Five(0x5e64_56af, 0x7b71_f76d, 0x09fa_7c76, 0x7924_10db, 0x8e11_eb59));
  }

  lemma Rounds64(w: seq<word>)
    requires |w| == 80
    requires Rounds(H0, w, 56) == Five(0x5e64_56af, 0x7b71_f76d, 0x09fa_7c76, 0x7924_10db, 0x8e11_eb59)
    requires w[56] == 0x651d_16a0 && w[57] == 0x6265_8ca1 && w[58] == 0x4585_44d6 && w[59] == 0x4458_4cb7
    requires w[60] == 0x7ba0_6619 && w[61] == 0x6380_aea2 && w[62] == 0x0ae5_5269 && w[63] == 0x627b_49a1
    ensures Rounds(H0, w, 64) == Five(0x6b61_c9e1, 0xb66c_020b, 0x9523_272c, 0xf5d5_b051, 0x8fd4_b796)
  {
    hide Rounds;
    var v := Five(0x5e64_56af, 0x7b71_f76d, 0x09fa_7c76, 0x7924_10db, 0x8e11_eb59);
    v := NextRound(w, 56, v, Five(0xc846_093f, 0x5e64_56af, 0x5edc_7ddb, 0x09fa_7c76, 0x7924_10db));
    v := NextRound(w, 57, v, Five(0xd262_ff50, 0xc846_093f, 0xd799_15ab, 0x5edc_7ddb, 0x09fa_7c76));
    v := NextRound(w, 58, v, Five(0x09d7_85fd, 0xd262_ff50, 0xf211_824f, 0xd799_15ab, 0x5edc_7ddb));
    v := NextRound(w, 59, v, Five(0x3f52_de5a, 0x09d7_85fd, 0x3498_bfd4, 0xf211_824f, 0xd799_15ab));
    v := NextRound(w, 60, v, Five(0xd756_c147, 0x3f52_de5a, 0x4275_e17f, 0x3498_bfd4, 0xf211_824f));
    v := NextRound(w, 61, v, Five(0x548c_9cb2, 0xd756_c147, 0x8fd4_b796, 0x4275_e17f, 0x3498_bfd4));
    v := NextRound(w, 62, v, Five(0xb66c_020b, 0x548c_9cb2, 0xf5d5_b051, 0x8fd4_b796, 0x4275_e17f));
    v := NextRound(w, 63, v, Five(0x6b61_c9e1, 0xb66c_020b, 0x9523_272c, 0xf5d5_b051, 0x8fd4_b796));
  }

  lemma Rounds72(w: seq<word>)
    requires |w| == 80
    requires Rounds(H0, w, 64) == Five(0x6b61_c9e1, 0xb66c_020b, 0x9523_272c, 0xf5d5_b051, 0x8fd4_b796)
    requires w[64] == 0x7cd4_5c9d && w[65] == 0x000f_0000 && w[66] == 0xfb50_753a && w[67] == 0xec67_65e8
    requires w[68] == 0xba3c_2be2 && w[69] == 0x0060_c000 && w[70] == 0x3a37_cd05 && w[71] == 0x4585_46f4
    ensures Rounds(H0, w, 72) == Five(0x3985_9de7, 0xc199_f8c7, 0x8fc9_6230, 0x125c_24f0, 0xde37_534a)
  {
    hide Rounds;
    var v := Five(0x6b61_c9e1, 0xb66c_020b, 0x9523_272c, 0xf5d5_b051, 0x8fd4_b796);
    v := NextRound(w, 64, v, Five(0x19df_a7ac, 0x6b61_c9e1, 0xed9b_0082, 0x9523_272c, 0xf5d5_b051));
    v := NextRound(w, 65, v, Five(0x1016_55f9, 0x19df_a7ac, 0x5ad8_7278, 0xed9b_0082, 0x9523_272c));
    v := NextRound(w, 66, v, Five(0x0c3d_f2b4, 0x1016_55f9, 0x0677_e9eb, 0x5ad8_7278, 0xed9b_0082));
    v := NextRound(w, 67, v, Five(0x78dd_4d2b, 0x0c3d_f2b4, 0x4405_957e, 0x0677_e9eb, 0x5ad8_7278));
    v := NextRound(w, 68, v, Five(0x4970_93c0, 0x78dd_4d2b, 0x030f_7cad, 0x4405_957e, 0x0677_e9eb));
    v := NextRound(w, 69, v, Five(0x3f25_88c2, 0x4970_93c0, 0xde37_534a, 0x030f_7cad, 0x4405_957e));
    v := NextRound(w, 70, v, Five(0xc199_f8c7, 0x3f25_88c2, 0x125c_24f0, 0xde37_534a, 0x030f_7cad));
    v := NextRound(w, 71, v, Five(0x3985_9de7, 0xc199_f8c7, 0x8fc9_6230, 0x125c_24f0, 0xde37_534a));
  }

  lemma Rounds80(w: seq<word>)
    requires |w| == 80
    requires Rounds(H0, w, 72) == Five(0x3985_9de7, 0xc199_f8c7, 0x8fc9_6230, 0x125c_24f0, 0xde37_534a)
    requires w[72] == 0xb859_9dd6 && w[73] == 0x380a_1a26 && w[74] == 0x01e0_2203 && w[75] == 0xe7cc_3456
    requires w[76] == 0xe6e6_0b69 && w[77] == 0x00f6_0a00 && w[78] == 0x5795_ef4f && w[79] == 0x822e_0879
    ensures Rounds(H0, w, 80) == Five(0x4254_1b35, 0x5738_d5e1, 0x2183_4873, 0x681e_6df6, 0xd8fd_f6ad)
  {
    hide Rounds;
    var v := Five(0x3985_9de7, 0xc199_f8c7, 0x8fc9_6230, 0x125c_24f0, 0xde37_534a);
    v := NextRound(w, 72, v, Five(0xedb4_2de4, 0x3985_9de7, 0xf066_7e31, 0x8fc9_6230, 0x125c_24f0));
    v := NextRound(w, 73, v, Five(0x1179_3f6f, 0xedb4_2de4, 0xce61_6779, 0xf066_7e31, 0x8fc9_6230));
    v := NextRound(w, 74, v, Five(0x5ee7_6897, 0x1179_3f6f, 0x3b6d_0b79, 0xce61_6779, 0xf066_7e31));
    v := NextRound(w, 75, v, Five(0x63f7_dab7, 0x5ee7_6897, 0xc45e_4fdb, 0x3b6d_0b79, 0xce61_6779));
    v := NextRound(w, 76, v, Five(0xa079_b7d9, 0x63f7_dab7, 0xd7b9_da25, 0xc45e_4fdb, 0x3b6d_0b79));
    v := NextRound(w, 77, v, Five(0x860d_21cc, 0xa079_b7d9, 0xd8fd_f6ad, 0xd7b9_da25, 0xc45e_4fdb));
    v := NextRound(w, 78, v, Five(0x5738_d5e1, 0x860d_21cc, 0x681e_6df6, 0xd8fd_f6ad, 0xd7b9_da25));
    v := NextRound(w, 79, v, Five(0x4254_1b35, 0x5738_d5e1, 0x2183_4873, 0x681e_6df6, 0xd8fd_f6ad));
  }

  /** One more round. */
  lemma NextRound(w: seq<word>, t: nat, v: Five, next: Five) returns (r: Five)
    requires t < |w| && Rounds(H0, w, t) == v && Round(t, v, w[t]) == next
    ensures r == next && Rounds(H0, w, t + 1) == next
  {
    hide Round;
    r := next;
  }

  lemma AllRounds(block: seq<byte>)
    requires block == Pad([0x61, 0x62, 0x63])
    ensures |block| == 64
    ensures Rounds(H0, Words(block), 80) == Five(0x4254_1b35, 0x5738_d5e1, 0x2183_4873, 0x681e_6df6, 0xd8fd_f6ad)
  {
    hide *;
    PaddedText();
    var w := Words(block);
    FirstWords(block);
    Words16(block);
    Words32(block);
    Words48(block);
    Words64(block);
    ZeroRounds(w);
    Rounds8(w);
    Rounds16(w);
    Rounds24(w);
    Rounds32(w);
    Rounds40(w);
    Rounds48(w);
    Rounds56(w);
    Rounds64(w);
    Rounds72(w);
    Rounds80(w);
  }

  lemma OneBlock(block: seq<byte>)
    requires |block| == 64
    requires Rounds(H0, Words(block), 80) == Five(0x4254_1b35, 0x5738_d5e1, 0x2183_4873, 0x681e_6df6, 0xd8fd_f6ad)
    ensures Blocks(H0, block) == Five(0xa999_3e36, 0x4706_816a, 0xba3e_2571, 0x7850_c26c, 0x9cd0_d89d)
  {
    hide Rounds, Words;
    assert block[..64] == block && block[64..] == [];
  }

  lemma HashBytes()
    ensures FiveBytes(Five(0xa999_3e36, 0x4706_816a, 0xba3e_2571, 0x7850_c26c, 0x9cd0_d89d)) ==
            [0xa9, 0x99, 0x3e, 0x36, 0x47, 0x06, 0x81, 0x6a, 0xba, 0x3e,
             0x25, 0x71, 0x78, 0x50, 0xc2, 0x6c, 0x9c, 0xd0, 0xd8, 0x9d]
  {}

  /** The digest of "abc". */
  lemma DigestOfAbc()
    ensures Sha1([0x61, 0x62, 0x63]) ==
            [0xa9, 0x99, 0x3e, 0x36, 0x47, 0x06, 0x81, 0x6a, 0xba, 0x3e,
             0x25, 0x71, 0x78, 0x50, 0xc2, 0x6c, 0x9c, 0xd0, 0xd8, 0x9d]
  {
    hide Rounds, Words, Pad, Blocks, FiveBytes;
    AllRounds(Pad([0x61, 0x62, 0x63]));
    OneBlock(Pad([0x61, 0x62, 0x63]));
    HashBytes();
  }

  lemma ZeroRounds(w: seq<word>)
    ensures Rounds(H0, w, 0) == Five(0x6745_2301, 0xefcd_ab89, 0x98ba_dcfe, 0x1032_5476, 0xc3d2_e1f0)
  {}
}
