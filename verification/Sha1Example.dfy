/** The published example of FIPS 180-4: the digest of "abc", worked out a few rounds at a time. */
module Sha1Example {
  import opened Fips180

  // ----- the constants are square roots ------------------------------------------------------------

  /** The number under the root in round `t`. */
  function UnderRoot(t: nat): nat {
    if t < 20 then 2 else if t < 40 then 3 else if t < 60 then 5 else 10
  }

  /** The constants of section 4.2.1 are the first bits of square roots: `K(t)` is the largest number whose square is
      at most `c * 2^60`, with `c` = 2, 3, 5 and 10. */
  lemma ConstantsAreRoots(t: nat)
    ensures var k := K(t) as nat;
      k * k <= UnderRoot(t) * 0x1000_0000_0000_0000 < (k + 1) * (k + 1)
  {
  }

  // ----- the message "abc" ---------------------------------------------------------------------------

  const ABC: seq<Byte> := [0x61, 0x62, 0x63]

  const BLOCK: seq<Word> := [0x6162_6380, 0, 0, 0, 0, 0, 0, 0, 0, 0, 0, 0, 0, 0, 0, 0x18]

  lemma Schedule0()
    ensures W(BLOCK, 0) == 0x6162_6380 && W(BLOCK, 1) == 0 && W(BLOCK, 2) == 0 && W(BLOCK, 3) == 0
    ensures W(BLOCK, 4) == 0 && W(BLOCK, 5) == 0 && W(BLOCK, 6) == 0 && W(BLOCK, 7) == 0
  {
  }

  lemma Schedule8()
    ensures W(BLOCK, 8) == 0 && W(BLOCK, 9) == 0 && W(BLOCK, 10) == 0 && W(BLOCK, 11) == 0
    ensures W(BLOCK, 12) == 0 && W(BLOCK, 13) == 0 && W(BLOCK, 14) == 0 && W(BLOCK, 15) == 0x0000_0018
  {
  }

  lemma Schedule16()
    ensures W(BLOCK, 16) == 0xC2C4_C700 && W(BLOCK, 17) == 0x0000_0000
    ensures W(BLOCK, 18) == 0x0000_0030 && W(BLOCK, 19) == 0x8589_8E01
    ensures W(BLOCK, 20) == 0x0000_0000 && W(BLOCK, 21) == 0x0000_0060
    ensures W(BLOCK, 22) == 0x0B13_1C03 && W(BLOCK, 23) == 0x0000_0030
  {
  }

  lemma Schedule24()
    ensures W(BLOCK, 24) == 0x8589_8EC1 && W(BLOCK, 25) == 0x1626_3806
    ensures W(BLOCK, 26) == 0x0000_0000 && W(BLOCK, 27) == 0x0000_0180
    ensures W(BLOCK, 28) == 0x2C4C_700C && W(BLOCK, 29) == 0x0000_00F0
    ensures W(BLOCK, 30) == 0x93AF_B507 && W(BLOCK, 31) == 0x5898_E048
  {
    Schedule16();
  }

  lemma Schedule32()
    ensures W(BLOCK, 32) == 0x8E9A_9202 && W(BLOCK, 33) == 0x0000_0600
    ensures W(BLOCK, 34) == 0xB131_C0F0 && W(BLOCK, 35) == 0x1626_3BC6
    ensures W(BLOCK, 36) == 0x4EBE_D41E && W(BLOCK, 37) == 0x6263_80A1
    ensures W(BLOCK, 38) == 0x1626_3806 && W(BLOCK, 39) == 0x0000_18C0
  {
    Schedule24();
    Schedule16();
  }

  lemma Schedule40()
    ensures W(BLOCK, 40) == 0xD2E1_38C4 && W(BLOCK, 41) == 0x0000_0F00
    ensures W(BLOCK, 42) == 0x3AFB_5079 && W(BLOCK, 43) == 0x898E_04E5
    ensures W(BLOCK, 44) == 0xE2BA_3C2B && W(BLOCK, 45) == 0x0000_60C0
    ensures W(BLOCK, 46) == 0x053A_37CD && W(BLOCK, 47) == 0x7445_8547
  {
    Schedule32();
    Schedule24();
  }

  lemma Schedule48()
    ensures W(BLOCK, 48) == 0xDA94_15ED && W(BLOCK, 49) == 0x2638_0A16
    ensures W(BLOCK, 50) == 0x6263_83A1 && W(BLOCK, 51) == 0x4EBF_54DE
    ensures W(BLOCK, 52) == 0x3835_B44B && W(BLOCK, 53) == 0x0000_F600
    ensures W(BLOCK, 54) == 0x1E84_C7A3 && W(BLOCK, 55) == 0x98E0_4D98
  {
    Schedule40();
    Schedule32();
  }

  lemma Schedule56()
    ensures W(BLOCK, 56) == 0x651D_16A0 && W(BLOCK, 57) == 0x6265_8CA1
    ensures W(BLOCK, 58) == 0x4585_44D6 && W(BLOCK, 59) == 0x4458_4CB7
    ensures W(BLOCK, 60) == 0x7BA0_6619 && W(BLOCK, 61) == 0x6380_AEA2
    ensures W(BLOCK, 62) == 0x0AE5_5269 && W(BLOCK, 63) == 0x627B_49A1
  {
    Schedule48();
    Schedule40();
  }

  lemma Schedule64()
    ensures W(BLOCK, 64) == 0x7CD4_5C9D && W(BLOCK, 65) == 0x000F_0000
    ensures W(BLOCK, 66) == 0xFB50_753A && W(BLOCK, 67) == 0xEC67_65E8
    ensures W(BLOCK, 68) == 0xBA3C_2BE2 && W(BLOCK, 69) == 0x0060_C000
    ensures W(BLOCK, 70) == 0x3A37_CD05 && W(BLOCK, 71) == 0x4585_46F4
  {
    Schedule56();
    Schedule48();
  }

  lemma Schedule72()
    ensures W(BLOCK, 72) == 0xB859_9DD6 && W(BLOCK, 73) == 0x380A_1A26
    ensures W(BLOCK, 74) == 0x01E0_2203 && W(BLOCK, 75) == 0xE7CC_3456
    ensures W(BLOCK, 76) == 0xE6E6_0B69 && W(BLOCK, 77) == 0x00F6_0A00
    ensures W(BLOCK, 78) == 0x5795_EF4F && W(BLOCK, 79) == 0x822E_0879
  {
    Schedule64();
    Schedule56();
  }

  lemma NoRounds()
    ensures Rounds(BLOCK, IV, 0) == IV
  {
  }

  lemma NextRound(t: nat, r: Regs)
    requires r == Round(Rounds(BLOCK, IV, t), t, W(BLOCK, t))
    ensures Rounds(BLOCK, IV, t + 1) == r
  {
    hide Round, W;
  }

  lemma Rounds5(t: nat)
    requires t == 5
    ensures Rounds(BLOCK, IV, t) == Regs(0xCFD4_99DE, 0xCDD8_E11B, 0x284E_43C2, 0x6264_14DB, 0xC045_BF0C)
  {
    hide Rounds, W;
    NoRounds();
    Schedule0();
    NextRound(0, Regs(0x0116_FC33, 0x6745_2301, 0x7BF3_6AE2, 0x98BA_DCFE, 0x1032_5476));
    NextRound(1, Regs(0x8990_536D, 0x0116_FC33, 0x59D1_48C0, 0x7BF3_6AE2, 0x98BA_DCFE));
    NextRound(2, Regs(0xA139_0F08, 0x8990_536D, 0xC045_BF0C, 0x59D1_48C0, 0x7BF3_6AE2));
    NextRound(3, Regs(0xCDD8_E11B, 0xA139_0F08, 0x6264_14DB, 0xC045_BF0C, 0x59D1_48C0));
    NextRound(4, Regs(0xCFD4_99DE, 0xCDD8_E11B, 0x284E_43C2, 0x6264_14DB, 0xC045_BF0C));
  }

  lemma Rounds10(t: nat)
    requires t == 10
    ensures Rounds(BLOCK, IV, t) == Regs(0x8351_F929, 0x4B6A_E328, 0x27A3_01F5, 0x664F_8C30, 0x0FF1_F290)
  {
    hide Rounds, W;
    Rounds5(t - 5);
    Schedule0();
    Schedule8();
    NextRound(5, Regs(0x3FC7_CA40, 0xCFD4_99DE, 0xF376_3846, 0x284E_43C2, 0x6264_14DB));
    NextRound(6, Regs(0x993E_30C1, 0x3FC7_CA40, 0xB3F5_2677, 0xF376_3846, 0x284E_43C2));
    NextRound(7, Regs(0x9E8C_07D4, 0x993E_30C1, 0x0FF1_F290, 0xB3F5_2677, 0xF376_3846));
    NextRound(8, Regs(0x4B6A_E328, 0x9E8C_07D4, 0x664F_8C30, 0x0FF1_F290, 0xB3F5_2677));
    NextRound(9, Regs(0x8351_F929, 0x4B6A_E328, 0x27A3_01F5, 0x664F_8C30, 0x0FF1_F290));
  }

  lemma Rounds15(t: nat)
    requires t == 15
    ensures Rounds(BLOCK, IV, t) == Regs(0x196B_EE77, 0x9128_F695, 0x1181_ED99, 0x18C6_23F9, 0x7EF6_A7A2)
  {
    hide Rounds, W;
    Rounds10(t - 5);
    Schedule8();
    NextRound(10, Regs(0xFBDA_9E89, 0x8351_F929, 0x12DA_B8CA, 0x27A3_01F5, 0x664F_8C30));
    NextRound(11, Regs(0x6318_8FE4, 0xFBDA_9E89, 0x60D4_7E4A, 0x12DA_B8CA, 0x27A3_01F5));
    NextRound(12, Regs(0x4607_B664, 0x6318_8FE4, 0x7EF6_A7A2, 0x60D4_7E4A, 0x12DA_B8CA));
    NextRound(13, Regs(0x9128_F695, 0x4607_B664, 0x18C6_23F9, 0x7EF6_A7A2, 0x60D4_7E4A));
    NextRound(14, Regs(0x196B_EE77, 0x9128_F695, 0x1181_ED99, 0x18C6_23F9, 0x7EF6_A7A2));
  }

  lemma Rounds20(t: nat)
    requires t == 20
    ensures Rounds(BLOCK, IV, t) == Regs(0xFD9E_1D7D, 0xDC64_901D, 0x20AA_99CA, 0xD3A4_9608, 0xC82F_758B)
  {
    hide Rounds, W;
    Rounds15(t - 5);
    Schedule8();
    Schedule16();
    NextRound(15, Regs(0x20BD_D62F, 0x196B_EE77, 0x644A_3DA5, 0x1181_ED99, 0x18C6_23F9));
    NextRound(16, Regs(0x4E92_5823, 0x20BD_D62F, 0xC65A_FB9D, 0x644A_3DA5, 0x1181_ED99));
    NextRound(17, Regs(0x82AA_6728, 0x4E92_5823, 0xC82F_758B, 0xC65A_FB9D, 0x644A_3DA5));
    NextRound(18, Regs(0xDC64_901D, 0x82AA_6728, 0xD3A4_9608, 0xC82F_758B, 0xC65A_FB9D));
    NextRound(19, Regs(0xFD9E_1D7D, 0xDC64_901D, 0x20AA_99CA, 0xD3A4_9608, 0xC82F_758B));
  }

  lemma Rounds25(t: nat)
    requires t == 25
    ensures Rounds(BLOCK, IV, t) == Regs(0xC756_7DC6, 0xD541_F12D, 0x884A_0D21, 0x0CE8_8EFF, 0x868D_EC32)
  {
    hide Rounds, W;
    Rounds20(t - 5);
    Schedule16();
    Schedule24();
    NextRound(20, Regs(0x1A37_B0CA, 0xFD9E_1D7D, 0x7719_2407, 0x20AA_99CA, 0xD3A4_9608));
    NextRound(21, Regs(0x33A2_3BFC, 0x1A37_B0CA, 0x7F67_875F, 0x7719_2407, 0x20AA_99CA));
    NextRound(22, Regs(0x2128_3486, 0x33A2_3BFC, 0x868D_EC32, 0x7F67_875F, 0x7719_2407));
    NextRound(23, Regs(0xD541_F12D, 0x2128_3486, 0x0CE8_8EFF, 0x868D_EC32, 0x7F67_875F));
    NextRound(24, Regs(0xC756_7DC6, 0xD541_F12D, 0x884A_0D21, 0x0CE8_8EFF, 0x868D_EC32));
  }

  lemma Rounds30(t: nat)
    requires t == 30
    ensures Rounds(BLOCK, IV, t) == Regs(0xC5FB_AF5D, 0x8370_B52E, 0xD2AA_1365, 0x6F8D_7EF5, 0x1210_4EE9)
  {
    hide Rounds, W;
    Rounds25(t - 5);
    Schedule24();
    NextRound(25, Regs(0x4841_3BA4, 0xC756_7DC6, 0x7550_7C4B, 0x884A_0D21, 0x0CE8_8EFF));
    NextRound(26, Regs(0xBE35_FBD5, 0x4841_3BA4, 0xB1D5_9F71, 0x7550_7C4B, 0x884A_0D21));
    NextRound(27, Regs(0x4AA8_4D97, 0xBE35_FBD5, 0x1210_4EE9, 0xB1D5_9F71, 0x7550_7C4B));
    NextRound(28, Regs(0x8370_B52E, 0x4AA8_4D97, 0x6F8D_7EF5, 0x1210_4EE9, 0xB1D5_9F71));
    NextRound(29, Regs(0xC5FB_AF5D, 0x8370_B52E, 0xD2AA_1365, 0x6F8D_7EF5, 0x1210_4EE9));
  }

  lemma Rounds35(t: nat)
    requires t == 35
    ensures Rounds(BLOCK, IV, t) == Regs(0x2179_6AD4, 0x2C0E_BC11, 0x811B_EA82, 0xCEE1_174C, 0xC499_ED01)
  {
    hide Rounds, W;
    Rounds30(t - 5);
    Schedule24();
    Schedule32();
    NextRound(30, Regs(0x1267_B407, 0xC5FB_AF5D, 0xA0DC_2D4B, 0xD2AA_1365, 0x6F8D_7EF5));
    NextRound(31, Regs(0x3B84_5D33, 0x1267_B407, 0x717E_EBD7, 0xA0DC_2D4B, 0xD2AA_1365));
    NextRound(32, Regs(0x046F_AA0A, 0x3B84_5D33, 0xC499_ED01, 0x717E_EBD7, 0xA0DC_2D4B));
    NextRound(33, Regs(0x2C0E_BC11, 0x046F_AA0A, 0xCEE1_174C, 0xC499_ED01, 0x717E_EBD7));
    NextRound(34, Regs(0x2179_6AD4, 0x2C0E_BC11, 0x811B_EA82, 0xCEE1_174C, 0xC499_ED01));
  }

  lemma Rounds40(t: nat)
    requires t == 40
    ensures Rounds(BLOCK, IV, t) == Regs(0x32DE_1CBA, 0x4C98_6405, 0xF718_E5CF, 0x03D4_47F6, 0xF72E_EC32)
  {
    hide Rounds, W;
    Rounds35(t - 5);
    Schedule32();
    NextRound(35, Regs(0xDCBB_B0CB, 0x2179_6AD4, 0x4B03_AF04, 0x811B_EA82, 0xCEE1_174C));
    NextRound(36, Regs(0x0F51_1FD8, 0xDCBB_B0CB, 0x085E_5AB5, 0x4B03_AF04, 0x811B_EA82));
    NextRound(37, Regs(0xDC63_973F, 0x0F51_1FD8, 0xF72E_EC32, 0x085E_5AB5, 0x4B03_AF04));
    NextRound(38, Regs(0x4C98_6405, 0xDC63_973F, 0x03D4_47F6, 0xF72E_EC32, 0x085E_5AB5));
    NextRound(39, Regs(0x32DE_1CBA, 0x4C98_6405, 0xF718_E5CF, 0x03D4_47F6, 0xF72E_EC32));
  }

  lemma Rounds45(t: nat)
    requires t == 45
    ensures Rounds(BLOCK, IV, t) == Regs(0x40F2_8E09, 0xEE1B_1AAF, 0x5FC6_4F71, 0x25C2_8357, 0xFF21_F7B7)
  {
    hide Rounds, W;
    Rounds40(t - 5);
    Schedule40();
    NextRound(40, Regs(0xFC87_DEDF, 0x32DE_1CBA, 0x5326_1901, 0xF718_E5CF, 0x03D4_47F6));
    NextRound(41, Regs(0x970A_0D5C, 0xFC87_DEDF, 0x8CB7_872E, 0x5326_1901, 0xF718_E5CF));
    NextRound(42, Regs(0x7F19_3DC5, 0x970A_0D5C, 0xFF21_F7B7, 0x8CB7_872E, 0x5326_1901));
    NextRound(43, Regs(0xEE1B_1AAF, 0x7F19_3DC5, 0x25C2_8357, 0xFF21_F7B7, 0x8CB7_872E));
    NextRound(44, Regs(0x40F2_8E09, 0xEE1B_1AAF, 0x5FC6_4F71, 0x25C2_8357, 0xFF21_F7B7));
  }

  lemma Rounds50(t: nat)
    requires t == 50
    ensures Rounds(BLOCK, IV, t) == Regs(0x1207_31C5, 0xBAF3_9337, 0xAFAB_40B2, 0x2806_E11B, 0x8714_787C)
  {
    hide Rounds, W;
    Rounds45(t - 5);
    Schedule40();
    Schedule48();
    NextRound(45, Regs(0x1C51_E1F2, 0x40F2_8E09, 0xFB86_C6AB, 0x5FC6_4F71, 0x25C2_8357));
    NextRound(46, Regs(0xA01B_846C, 0x1C51_E1F2, 0x503C_A382, 0xFB86_C6AB, 0x5FC6_4F71));
    NextRound(47, Regs(0xBEAD_02CA, 0xA01B_846C, 0x8714_787C, 0x503C_A382, 0xFB86_C6AB));
    NextRound(48, Regs(0xBAF3_9337, 0xBEAD_02CA, 0x2806_E11B, 0x8714_787C, 0x503C_A382));
    NextRound(49, Regs(0x1207_31C5, 0xBAF3_9337, 0xAFAB_40B2, 0x2806_E11B, 0x8714_787C));
  }

  lemma Rounds55(t: nat)
    requires t == 55
    ensures Rounds(BLOCK, IV, t) == Regs(0x7B71_F76D, 0x27E9_F1D8, 0x7924_10DB, 0x8E11_EB59, 0x9907_6CB3)
  {
    hide Rounds, W;
    Rounds50(t - 5);
    Schedule48();
    NextRound(50, Regs(0x641D_B2CE, 0x1207_31C5, 0xEEBC_E4CD, 0xAFAB_40B2, 0x2806_E11B));
    NextRound(51, Regs(0x3847_AD66, 0x641D_B2CE, 0x4481_CC71, 0xEEBC_E4CD, 0xAFAB_40B2));
    NextRound(52, Regs(0xE490_436D, 0x3847_AD66, 0x9907_6CB3, 0x4481_CC71, 0xEEBC_E4CD));
    NextRound(53, Regs(0x27E9_F1D8, 0xE490_436D, 0x8E11_EB59, 0x9907_6CB3, 0x4481_CC71));
    NextRound(54, Regs(0x7B71_F76D, 0x27E9_F1D8, 0x7924_10DB, 0x8E11_EB59, 0x9907_6CB3));
  }

  lemma Rounds60(t: nat)
    requires t == 60
    ensures Rounds(BLOCK, IV, t) == Regs(0x3F52_DE5A, 0x09D7_85FD, 0x3498_BFD4, 0xF211_824F, 0xD799_15AB)
  {
    hide Rounds, W;
    Rounds55(t - 5);
    Schedule48();
    Schedule56();
    NextRound(55, Regs(0x5E64_56AF, 0x7B71_F76D, 0x09FA_7C76, 0x7924_10DB, 0x8E11_EB59));
    NextRound(56, Regs(0xC846_093F, 0x5E64_56AF, 0x5EDC_7DDB, 0x09FA_7C76, 0x7924_10DB));
    NextRound(57, Regs(0xD262_FF50, 0xC846_093F, 0xD799_15AB, 0x5EDC_7DDB, 0x09FA_7C76));
    NextRound(58, Regs(0x09D7_85FD, 0xD262_FF50, 0xF211_824F, 0xD799_15AB, 0x5EDC_7DDB));
    NextRound(59, Regs(0x3F52_DE5A, 0x09D7_85FD, 0x3498_BFD4, 0xF211_824F, 0xD799_15AB));
  }

  lemma Rounds65(t: nat)
    requires t == 65
    ensures Rounds(BLOCK, IV, t) == Regs(0x19DF_A7AC, 0x6B61_C9E1, 0xED9B_0082, 0x9523_272C, 0xF5D5_B051)
  {
    hide Rounds, W;
    Rounds60(t - 5);
    Schedule56();
    Schedule64();
    NextRound(60, Regs(0xD756_C147, 0x3F52_DE5A, 0x4275_E17F, 0x3498_BFD4, 0xF211_824F));
    NextRound(61, Regs(0x548C_9CB2, 0xD756_C147, 0x8FD4_B796, 0x4275_E17F, 0x3498_BFD4));
    NextRound(62, Regs(0xB66C_020B, 0x548C_9CB2, 0xF5D5_B051, 0x8FD4_B796, 0x4275_E17F));
    NextRound(63, Regs(0x6B61_C9E1, 0xB66C_020B, 0x9523_272C, 0xF5D5_B051, 0x8FD4_B796));
    NextRound(64, Regs(0x19DF_A7AC, 0x6B61_C9E1, 0xED9B_0082, 0x9523_272C, 0xF5D5_B051));
  }

  lemma Rounds70(t: nat)
    requires t == 70
    ensures Rounds(BLOCK, IV, t) == Regs(0x3F25_88C2, 0x4970_93C0, 0xDE37_534A, 0x030F_7CAD, 0x4405_957E)
  {
    hide Rounds, W;
    Rounds65(t - 5);
    Schedule64();
    NextRound(65, Regs(0x1016_55F9, 0x19DF_A7AC, 0x5AD8_7278, 0xED9B_0082, 0x9523_272C));
    NextRound(66, Regs(0x0C3D_F2B4, 0x1016_55F9, 0x0677_E9EB, 0x5AD8_7278, 0xED9B_0082));
    NextRound(67, Regs(0x78DD_4D2B, 0x0C3D_F2B4, 0x4405_957E, 0x0677_E9EB, 0x5AD8_7278));
    NextRound(68, Regs(0x4970_93C0, 0x78DD_4D2B, 0x030F_7CAD, 0x4405_957E, 0x0677_E9EB));
    NextRound(69, Regs(0x3F25_88C2, 0x4970_93C0, 0xDE37_534A, 0x030F_7CAD, 0x4405_957E));
  }

  lemma Rounds75(t: nat)
    requires t == 75
    ensures Rounds(BLOCK, IV, t) == Regs(0x5EE7_6897, 0x1179_3F6F, 0x3B6D_0B79, 0xCE61_6779, 0xF066_7E31)
  {
    hide Rounds, W;
    Rounds70(t - 5);
    Schedule64();
    Schedule72();
    NextRound(70, Regs(0xC199_F8C7, 0x3F25_88C2, 0x125C_24F0, 0xDE37_534A, 0x030F_7CAD));
    NextRound(71, Regs(0x3985_9DE7, 0xC199_F8C7, 0x8FC9_6230, 0x125C_24F0, 0xDE37_534A));
    NextRound(72, Regs(0xEDB4_2DE4, 0x3985_9DE7, 0xF066_7E31, 0x8FC9_6230, 0x125C_24F0));
    NextRound(73, Regs(0x1179_3F6F, 0xEDB4_2DE4, 0xCE61_6779, 0xF066_7E31, 0x8FC9_6230));
    NextRound(74, Regs(0x5EE7_6897, 0x1179_3F6F, 0x3B6D_0B79, 0xCE61_6779, 0xF066_7E31));
  }

  lemma Rounds80(t: nat)
    requires t == 80
    ensures Rounds(BLOCK, IV, t) == Regs(0x4254_1B35, 0x5738_D5E1, 0x2183_4873, 0x681E_6DF6, 0xD8FD_F6AD)
  {
    hide Rounds, W;
    Rounds75(t - 5);
    Schedule72();
    NextRound(75, Regs(0x63F7_DAB7, 0x5EE7_6897, 0xC45E_4FDB, 0x3B6D_0B79, 0xCE61_6779));
    NextRound(76, Regs(0xA079_B7D9, 0x63F7_DAB7, 0xD7B9_DA25, 0xC45E_4FDB, 0x3B6D_0B79));
    NextRound(77, Regs(0x860D_21CC, 0xA079_B7D9, 0xD8FD_F6AD, 0xD7B9_DA25, 0xC45E_4FDB));
    NextRound(78, Regs(0x5738_D5E1, 0x860D_21CC, 0x681E_6DF6, 0xD8FD_F6AD, 0xD7B9_DA25));
    NextRound(79, Regs(0x4254_1B35, 0x5738_D5E1, 0x2183_4873, 0x681E_6DF6, 0xD8FD_F6AD));
  }

  function PaddedAbc(): seq<Byte> {
    START + Zeros(52) + LENGTH
  }

  const START: seq<Byte> := [0x61, 0x62, 0x63, 0x80]

  const LENGTH: seq<Byte> := [0, 0, 0, 0, 0, 0, 0, 0x18]

  lemma StartIs()
    ensures |ABC| == 3 && ABC + [0x80] == START && ZeroBytes(3) == 52
  {
  }

  lemma PadParts(m: seq<Byte>)
    ensures Pad(m) == (m + [0x80]) + Zeros(ZeroBytes(|m|)) + BigEndian(8 * |m|, 8)
  {
    hide BigEndian, ZeroBytes, Zeros;
  }

  lemma PaddedBytes()
    ensures Pad(ABC) == PaddedAbc()
  {
    hide BigEndian, ZeroBytes, Zeros, Pad;
    LengthBytes();
    StartIs();
    PadParts(ABC);
  }

  /** "abc" is padded to one block. */
  lemma Padded()
    ensures |Pad(ABC)| == 64 && Words(Pad(ABC)) == BLOCK
  {
    PaddedBytes();
    FirstWord();
    NoWord();
    LastWord();
    hide BytesWord, Pad;
    var p := PaddedAbc();
    assert p[0] == 0x61 && p[1] == 0x62 && p[2] == 0x63 && p[3] == 0x80;
    assert p[60] == p[61] == p[62] == 0 && p[63] == 0x18;
    assert forall k :: 4 <= k < 60 ==> p[k] == 0;
    hide Zeros;
    WordsOf(p);
  }

  lemma WordsOf(p: seq<Byte>)
    requires |p| == 64 && BytesWord(p[0], p[1], p[2], p[3]) == 0x6162_6380
    requires (forall k :: 4 <= k < 60 ==> p[k] == 0) && BytesWord(0, 0, 0, 0) == 0
    requires BytesWord(p[60], p[61], p[62], p[63]) == 0x18
    ensures Words(p) == BLOCK
  {
    hide BytesWord;
    forall i | 0 <= i < 16
      ensures Words(p)[i] == BLOCK[i]
    {
      assert 0 < i < 15 ==> p[4 * i] == p[4 * i + 1] == p[4 * i + 2] == p[4 * i + 3] == 0;
    }
  }

  lemma LengthBytes()
    ensures BigEndian(24, 8) == LENGTH
  {
    NoBytes(7);
    assert LowByte(24) == 0x18;
    assert BigEndian(24, 8) == BigEndian(0, 7) + [LowByte(24)];
  }

  lemma {:induction false} NoBytes(k: nat)
    ensures BigEndian(0, k) == Zeros(k)
  {
    if k > 0 { NoBytes(k - 1); }
  }

  lemma FirstWord()
    ensures BytesWord(0x61, 0x62, 0x63, 0x80) == 0x6162_6380
  {
  }

  lemma NoWord()
    ensures BytesWord(0, 0, 0, 0) == 0
  {
  }

  lemma LastWord()
    ensures BytesWord(0, 0, 0, 0x18) == 0x18
  {
  }

  lemma Added()
    ensures Compress(BLOCK, IV) == Regs(0xA999_3E36, 0x4706_816A, 0xBA3E_2571, 0x7850_C26C, 0x9CD0_D89D)
  {
    Rounds80(80);
  }

  /** The digest of "abc" is the published one. */
  lemma Abc()
    ensures Sha1(ABC) == [0xA9, 0x99, 0x3E, 0x36, 0x47, 0x06, 0x81, 0x6A, 0xBA, 0x3E,
                          0x25, 0x71, 0x78, 0x50, 0xC2, 0x6C, 0x9C, 0xD0, 0xD8, 0x9D]
  {
    Padded();
    Added();
    hide Pad, Words, Compress, HashBlocks;
    HashOne(Pad(ABC));
    DigestBytes();
  }

  lemma HashOne(p: seq<Byte>)
    requires |p| == 64
    ensures HashBlocks(p) == Compress(Words(p), IV)
  {
    assert p[|p| - 64..] == p && p[..|p| - 64] == [];
  }

  lemma DigestBytes()
    ensures Digest(Regs(0xA999_3E36, 0x4706_816A, 0xBA3E_2571, 0x7850_C26C, 0x9CD0_D89D))
         == [0xA9, 0x99, 0x3E, 0x36, 0x47, 0x06, 0x81, 0x6A, 0xBA, 0x3E,
             0x25, 0x71, 0x78, 0x50, 0xC2, 0x6C, 0x9C, 0xD0, 0xD8, 0x9D]
  {
  }

}
