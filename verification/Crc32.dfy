/** crc32_update of sshcrc.c: the table-driven CRC-32. */
module Crc32 {
  import opened ShiftRegister

  // crc32_table, sixteen entries to a row; an index is a word below 256.

  function Row0(b: bv32): bv32 {
    match b
    case 0 => 0x0000_0000
    case 1 => 0x7707_3096
    case 2 => 0xEE0E_612C
    case 3 => 0x9909_51BA
    case 4 => 0x076D_C419
    case 5 => 0x706A_F48F
    case 6 => 0xE963_A535
    case 7 => 0x9E64_95A3
    case 8 => 0x0EDB_8832
    case 9 => 0x79DC_B8A4
    case 10 => 0xE0D5_E91E
    case 11 => 0x97D2_D988
    case 12 => 0x09B6_4C2B
    case 13 => 0x7EB1_7CBD
    case 14 => 0xE7B8_2D07
    case _ => 0x90BF_1D91
  }

  function Row1(b: bv32): bv32 {
    match b
    case 16 => 0x1DB7_1064
    case 17 => 0x6AB0_20F2
    case 18 => 0xF3B9_7148
    case 19 => 0x84BE_41DE
    case 20 => 0x1ADA_D47D
    case 21 => 0x6DDD_E4EB
    case 22 => 0xF4D4_B551
    case 23 => 0x83D3_85C7
    case 24 => 0x136C_9856
    case 25 => 0x646B_A8C0
    case 26 => 0xFD62_F97A
    case 27 => 0x8A65_C9EC
    case 28 => 0x1401_5C4F
    case 29 => 0x6306_6CD9
    case 30 => 0xFA0F_3D63
    case _ => 0x8D08_0DF5
  }

  function Row2(b: bv32): bv32 {
    match b
    case 32 => 0x3B6E_20C8
    case 33 => 0x4C69_105E
    case 34 => 0xD560_41E4
    case 35 => 0xA267_7172
    case 36 => 0x3C03_E4D1
    case 37 => 0x4B04_D447
    case 38 => 0xD20D_85FD
    case 39 => 0xA50A_B56B
    case 40 => 0x35B5_A8FA
    case 41 => 0x42B2_986C
    case 42 => 0xDBBB_C9D6
    case 43 => 0xACBC_F940
    case 44 => 0x32D8_6CE3
    case 45 => 0x45DF_5C75
    case 46 => 0xDCD6_0DCF
    case _ => 0xABD1_3D59
  }

  function Row3(b: bv32): bv32 {
    match b
    case 48 => 0x26D9_30AC
    case 49 => 0x51DE_003A
    case 50 => 0xC8D7_5180
    case 51 => 0xBFD0_6116
    case 52 => 0x21B4_F4B5
    case 53 => 0x56B3_C423
    case 54 => 0xCFBA_9599
    case 55 => 0xB8BD_A50F
    case 56 => 0x2802_B89E
    case 57 => 0x5F05_8808
    case 58 => 0xC60C_D9B2
    case 59 => 0xB10B_E924
    case 60 => 0x2F6F_7C87
    case 61 => 0x5868_4C11
    case 62 => 0xC161_1DAB
    case _ => 0xB666_2D3D
  }

  function Row4(b: bv32): bv32 {
    match b
    case 64 => 0x76DC_4190
    case 65 => 0x01DB_7106
    case 66 => 0x98D2_20BC
    case 67 => 0xEFD5_102A
    case 68 => 0x71B1_8589
    case 69 => 0x06B6_B51F
    case 70 => 0x9FBF_E4A5
    case 71 => 0xE8B8_D433
    case 72 => 0x7807_C9A2
    case 73 => 0x0F00_F934
    case 74 => 0x9609_A88E
    case 75 => 0xE10E_9818
    case 76 => 0x7F6A_0DBB
    case 77 => 0x086D_3D2D
    case 78 => 0x9164_6C97
    case _ => 0xE663_5C01
  }

  function Row5(b: bv32): bv32 {
    match b
    case 80 => 0x6B6B_51F4
    case 81 => 0x1C6C_6162
    case 82 => 0x8565_30D8
    case 83 => 0xF262_004E
    case 84 => 0x6C06_95ED
    case 85 => 0x1B01_A57B
    case 86 => 0x8208_F4C1
    case 87 => 0xF50F_C457
    case 88 => 0x65B0_D9C6
    case 89 => 0x12B7_E950
    case 90 => 0x8BBE_B8EA
    case 91 => 0xFCB9_887C
    case 92 => 0x62DD_1DDF
    case 93 => 0x15DA_2D49
    case 94 => 0x8CD3_7CF3
    case _ => 0xFBD4_4C65
  }

  function Row6(b: bv32): bv32 {
    match b
    case 96 => 0x4DB2_6158
    case 97 => 0x3AB5_51CE
    case 98 => 0xA3BC_0074
    case 99 => 0xD4BB_30E2
    case 100 => 0x4ADF_A541
    case 101 => 0x3DD8_95D7
    case 102 => 0xA4D1_C46D
    case 103 => 0xD3D6_F4FB
    case 104 => 0x4369_E96A
    case 105 => 0x346E_D9FC
    case 106 => 0xAD67_8846
    case 107 => 0xDA60_B8D0
    case 108 => 0x4404_2D73
    case 109 => 0x3303_1DE5
    case 110 => 0xAA0A_4C5F
    case _ => 0xDD0D_7CC9
  }

  function Row7(b: bv32): bv32 {
    match b
    case 112 => 0x5005_713C
    case 113 => 0x2702_41AA
    case 114 => 0xBE0B_1010
    case 115 => 0xC90C_2086
    case 116 => 0x5768_B525
    case 117 => 0x206F_85B3
    case 118 => 0xB966_D409
    case 119 => 0xCE61_E49F
    case 120 => 0x5EDE_F90E
    case 121 => 0x29D9_C998
    case 122 => 0xB0D0_9822
    case 123 => 0xC7D7_A8B4
    case 124 => 0x59B3_3D17
    case 125 => 0x2EB4_0D81
    case 126 => 0xB7BD_5C3B
    case _ => 0xC0BA_6CAD
  }

  function Row8(b: bv32): bv32 {
    match b
    case 128 => 0xEDB8_8320
    case 129 => 0x9ABF_B3B6
    case 130 => 0x03B6_E20C
    case 131 => 0x74B1_D29A
    case 132 => 0xEAD5_4739
    case 133 => 0x9DD2_77AF
    case 134 => 0x04DB_2615
    case 135 => 0x73DC_1683
    case 136 => 0xE363_0B12
    case 137 => 0x9464_3B84
    case 138 => 0x0D6D_6A3E
    case 139 => 0x7A6A_5AA8
    case 140 => 0xE40E_CF0B
    case 141 => 0x9309_FF9D
    case 142 => 0x0A00_AE27
    case _ => 0x7D07_9EB1
  }

  function Row9(b: bv32): bv32 {
    match b
    case 144 => 0xF00F_9344
    case 145 => 0x8708_A3D2
    case 146 => 0x1E01_F268
    case 147 => 0x6906_C2FE
    case 148 => 0xF762_575D
    case 149 => 0x8065_67CB
    case 150 => 0x196C_3671
    case 151 => 0x6E6B_06E7
    case 152 => 0xFED4_1B76
    case 153 => 0x89D3_2BE0
    case 154 => 0x10DA_7A5A
    case 155 => 0x67DD_4ACC
    case 156 => 0xF9B9_DF6F
    case 157 => 0x8EBE_EFF9
    case 158 => 0x17B7_BE43
    case _ => 0x60B0_8ED5
  }

  function Row10(b: bv32): bv32 {
    match b
    case 160 => 0xD6D6_A3E8
    case 161 => 0xA1D1_937E
    case 162 => 0x38D8_C2C4
    case 163 => 0x4FDF_F252
    case 164 => 0xD1BB_67F1
    case 165 => 0xA6BC_5767
    case 166 => 0x3FB5_06DD
    case 167 => 0x48B2_364B
    case 168 => 0xD80D_2BDA
    case 169 => 0xAF0A_1B4C
    case 170 => 0x3603_4AF6
    case 171 => 0x4104_7A60
    case 172 => 0xDF60_EFC3
    case 173 => 0xA867_DF55
    case 174 => 0x316E_8EEF
    case _ => 0x4669_BE79
  }

  function Row11(b: bv32): bv32 {
    match b
    case 176 => 0xCB61_B38C
    case 177 => 0xBC66_831A
    case 178 => 0x256F_D2A0
    case 179 => 0x5268_E236
    case 180 => 0xCC0C_7795
    case 181 => 0xBB0B_4703
    case 182 => 0x2202_16B9
    case 183 => 0x5505_262F
    case 184 => 0xC5BA_3BBE
    case 185 => 0xB2BD_0B28
    case 186 => 0x2BB4_5A92
    case 187 => 0x5CB3_6A04
    case 188 => 0xC2D7_FFA7
    case 189 => 0xB5D0_CF31
    case 190 => 0x2CD9_9E8B
    case _ => 0x5BDE_AE1D
  }

  function Row12(b: bv32): bv32 {
    match b
    case 192 => 0x9B64_C2B0
    case 193 => 0xEC63_F226
    case 194 => 0x756A_A39C
    case 195 => 0x026D_930A
    case 196 => 0x9C09_06A9
    case 197 => 0xEB0E_363F
    case 198 => 0x7207_6785
    case 199 => 0x0500_5713
    case 200 => 0x95BF_4A82
    case 201 => 0xE2B8_7A14
    case 202 => 0x7BB1_2BAE
    case 203 => 0x0CB6_1B38
    case 204 => 0x92D2_8E9B
    case 205 => 0xE5D5_BE0D
    case 206 => 0x7CDC_EFB7
    case _ => 0x0BDB_DF21
  }

  function Row13(b: bv32): bv32 {
    match b
    case 208 => 0x86D3_D2D4
    case 209 => 0xF1D4_E242
    case 210 => 0x68DD_B3F8
    case 211 => 0x1FDA_836E
    case 212 => 0x81BE_16CD
    case 213 => 0xF6B9_265B
    case 214 => 0x6FB0_77E1
    case 215 => 0x18B7_4777
    case 216 => 0x8808_5AE6
    case 217 => 0xFF0F_6A70
    case 218 => 0x6606_3BCA
    case 219 => 0x1101_0B5C
    case 220 => 0x8F65_9EFF
    case 221 => 0xF862_AE69
    case 222 => 0x616B_FFD3
    case _ => 0x166C_CF45
  }

  function Row14(b: bv32): bv32 {
    match b
    case 224 => 0xA00A_E278
    case 225 => 0xD70D_D2EE
    case 226 => 0x4E04_8354
    case 227 => 0x3903_B3C2
    case 228 => 0xA767_2661
    case 229 => 0xD060_16F7
    case 230 => 0x4969_474D
    case 231 => 0x3E6E_77DB
    case 232 => 0xAED1_6A4A
    case 233 => 0xD9D6_5ADC
    case 234 => 0x40DF_0B66
    case 235 => 0x37D8_3BF0
    case 236 => 0xA9BC_AE53
    case 237 => 0xDEBB_9EC5
    case 238 => 0x47B2_CF7F
    case _ => 0x30B5_FFE9
  }

  function Row15(b: bv32): bv32 {
    match b
    case 240 => 0xBDBD_F21C
    case 241 => 0xCABA_C28A
    case 242 => 0x53B3_9330
    case 243 => 0x24B4_A3A6
    case 244 => 0xBAD0_3605
    case 245 => 0xCDD7_0693
    case 246 => 0x54DE_5729
    case 247 => 0x23D9_67BF
    case 248 => 0xB366_7A2E
    case 249 => 0xC461_4AB8
    case 250 => 0x5D68_1B02
    case 251 => 0x2A6F_2B94
    case 252 => 0xB40B_BE37
    case 253 => 0xC30C_8EA1
    case 254 => 0x5A05_DF1B
    case _ => 0x2D02_EF8D
  }

  function Entry(b: bv32): bv32
    requires b < 256
  {
    if b < 16 then Row0(b)
    else if b < 32 then Row1(b)
    else if b < 48 then Row2(b)
    else if b < 64 then Row3(b)
    else if b < 80 then Row4(b)
    else if b < 96 then Row5(b)
    else if b < 112 then Row6(b)
    else if b < 128 then Row7(b)
    else if b < 144 then Row8(b)
    else if b < 160 then Row9(b)
    else if b < 176 then Row10(b)
    else if b < 192 then Row11(b)
    else if b < 208 then Row12(b)
    else if b < 224 then Row13(b)
    else if b < 240 then Row14(b)
    else Row15(b)
  }

  lemma Row0Values()
    ensures Eight(0) == 0x0000_0000 && Eight(1) == 0x7707_3096 && Eight(2) == 0xEE0E_612C && Eight(3) == 0x9909_51BA
    ensures Eight(4) == 0x076D_C419 && Eight(5) == 0x706A_F48F && Eight(6) == 0xE963_A535 && Eight(7) == 0x9E64_95A3
    ensures Eight(8) == 0x0EDB_8832 && Eight(9) == 0x79DC_B8A4 && Eight(10) == 0xE0D5_E91E && Eight(11) == 0x97D2_D988
    ensures Eight(12) == 0x09B6_4C2B && Eight(13) == 0x7EB1_7CBD && Eight(14) == 0xE7B8_2D07 && Eight(15) == 0x90BF_1D91
  {
  }

  lemma Row1Values()
    ensures Eight(16) == 0x1DB7_1064 && Eight(17) == 0x6AB0_20F2 && Eight(18) == 0xF3B9_7148 && Eight(19) == 0x84BE_41DE
    ensures Eight(20) == 0x1ADA_D47D && Eight(21) == 0x6DDD_E4EB && Eight(22) == 0xF4D4_B551 && Eight(23) == 0x83D3_85C7
    ensures Eight(24) == 0x136C_9856 && Eight(25) == 0x646B_A8C0 && Eight(26) == 0xFD62_F97A && Eight(27) == 0x8A65_C9EC
    ensures Eight(28) == 0x1401_5C4F && Eight(29) == 0x6306_6CD9 && Eight(30) == 0xFA0F_3D63 && Eight(31) == 0x8D08_0DF5
  {
  }

  lemma Row2Values()
    ensures Eight(32) == 0x3B6E_20C8 && Eight(33) == 0x4C69_105E && Eight(34) == 0xD560_41E4 && Eight(35) == 0xA267_7172
    ensures Eight(36) == 0x3C03_E4D1 && Eight(37) == 0x4B04_D447 && Eight(38) == 0xD20D_85FD && Eight(39) == 0xA50A_B56B
    ensures Eight(40) == 0x35B5_A8FA && Eight(41) == 0x42B2_986C && Eight(42) == 0xDBBB_C9D6 && Eight(43) == 0xACBC_F940
    ensures Eight(44) == 0x32D8_6CE3 && Eight(45) == 0x45DF_5C75 && Eight(46) == 0xDCD6_0DCF && Eight(47) == 0xABD1_3D59
  {
  }

  lemma Row3Values()
    ensures Eight(48) == 0x26D9_30AC && Eight(49) == 0x51DE_003A && Eight(50) == 0xC8D7_5180 && Eight(51) == 0xBFD0_6116
    ensures Eight(52) == 0x21B4_F4B5 && Eight(53) == 0x56B3_C423 && Eight(54) == 0xCFBA_9599 && Eight(55) == 0xB8BD_A50F
    ensures Eight(56) == 0x2802_B89E && Eight(57) == 0x5F05_8808 && Eight(58) == 0xC60C_D9B2 && Eight(59) == 0xB10B_E924
    ensures Eight(60) == 0x2F6F_7C87 && Eight(61) == 0x5868_4C11 && Eight(62) == 0xC161_1DAB && Eight(63) == 0xB666_2D3D
  {
  }

  lemma Row4Values()
    ensures Eight(64) == 0x76DC_4190 && Eight(65) == 0x01DB_7106 && Eight(66) == 0x98D2_20BC && Eight(67) == 0xEFD5_102A
    ensures Eight(68) == 0x71B1_8589 && Eight(69) == 0x06B6_B51F && Eight(70) == 0x9FBF_E4A5 && Eight(71) == 0xE8B8_D433
    ensures Eight(72) == 0x7807_C9A2 && Eight(73) == 0x0F00_F934 && Eight(74) == 0x9609_A88E && Eight(75) == 0xE10E_9818
    ensures Eight(76) == 0x7F6A_0DBB && Eight(77) == 0x086D_3D2D && Eight(78) == 0x9164_6C97 && Eight(79) == 0xE663_5C01
  {
  }

  lemma Row5Values()
    ensures Eight(80) == 0x6B6B_51F4 && Eight(81) == 0x1C6C_6162 && Eight(82) == 0x8565_30D8 && Eight(83) == 0xF262_004E
    ensures Eight(84) == 0x6C06_95ED && Eight(85) == 0x1B01_A57B && Eight(86) == 0x8208_F4C1 && Eight(87) == 0xF50F_C457
    ensures Eight(88) == 0x65B0_D9C6 && Eight(89) == 0x12B7_E950 && Eight(90) == 0x8BBE_B8EA && Eight(91) == 0xFCB9_887C
    ensures Eight(92) == 0x62DD_1DDF && Eight(93) == 0x15DA_2D49 && Eight(94) == 0x8CD3_7CF3 && Eight(95) == 0xFBD4_4C65
  {
  }

  lemma Row6Values()
    ensures Eight(96) == 0x4DB2_6158 && Eight(97) == 0x3AB5_51CE && Eight(98) == 0xA3BC_0074 && Eight(99) == 0xD4BB_30E2
    ensures Eight(100) == 0x4ADF_A541 && Eight(101) == 0x3DD8_95D7 && Eight(102) == 0xA4D1_C46D && Eight(103) == 0xD3D6_F4FB
    ensures Eight(104) == 0x4369_E96A && Eight(105) == 0x346E_D9FC && Eight(106) == 0xAD67_8846 && Eight(107) == 0xDA60_B8D0
    ensures Eight(108) == 0x4404_2D73 && Eight(109) == 0x3303_1DE5 && Eight(110) == 0xAA0A_4C5F && Eight(111) == 0xDD0D_7CC9
  {
  }

  lemma Row7Values()
    ensures Eight(112) == 0x5005_713C && Eight(113) == 0x2702_41AA && Eight(114) == 0xBE0B_1010 && Eight(115) == 0xC90C_2086
    ensures Eight(116) == 0x5768_B525 && Eight(117) == 0x206F_85B3 && Eight(118) == 0xB966_D409 && Eight(119) == 0xCE61_E49F
    ensures Eight(120) == 0x5EDE_F90E && Eight(121) == 0x29D9_C998 && Eight(122) == 0xB0D0_9822 && Eight(123) == 0xC7D7_A8B4
    ensures Eight(124) == 0x59B3_3D17 && Eight(125) == 0x2EB4_0D81 && Eight(126) == 0xB7BD_5C3B && Eight(127) == 0xC0BA_6CAD
  {
  }

  lemma Row8Values()
    ensures Eight(128) == 0xEDB8_8320 && Eight(129) == 0x9ABF_B3B6 && Eight(130) == 0x03B6_E20C && Eight(131) == 0x74B1_D29A
    ensures Eight(132) == 0xEAD5_4739 && Eight(133) == 0x9DD2_77AF && Eight(134) == 0x04DB_2615 && Eight(135) == 0x73DC_1683
    ensures Eight(136) == 0xE363_0B12 && Eight(137) == 0x9464_3B84 && Eight(138) == 0x0D6D_6A3E && Eight(139) == 0x7A6A_5AA8
    ensures Eight(140) == 0xE40E_CF0B && Eight(141) == 0x9309_FF9D && Eight(142) == 0x0A00_AE27 && Eight(143) == 0x7D07_9EB1
  {
  }

  lemma Row9Values()
    ensures Eight(144) == 0xF00F_9344 && Eight(145) == 0x8708_A3D2 && Eight(146) == 0x1E01_F268 && Eight(147) == 0x6906_C2FE
    ensures Eight(148) == 0xF762_575D && Eight(149) == 0x8065_67CB && Eight(150) == 0x196C_3671 && Eight(151) == 0x6E6B_06E7
    ensures Eight(152) == 0xFED4_1B76 && Eight(153) == 0x89D3_2BE0 && Eight(154) == 0x10DA_7A5A && Eight(155) == 0x67DD_4ACC
    ensures Eight(156) == 0xF9B9_DF6F && Eight(157) == 0x8EBE_EFF9 && Eight(158) == 0x17B7_BE43 && Eight(159) == 0x60B0_8ED5
  {
  }

  lemma Row10Values()
    ensures Eight(160) == 0xD6D6_A3E8 && Eight(161) == 0xA1D1_937E && Eight(162) == 0x38D8_C2C4 && Eight(163) == 0x4FDF_F252
    ensures Eight(164) == 0xD1BB_67F1 && Eight(165) == 0xA6BC_5767 && Eight(166) == 0x3FB5_06DD && Eight(167) == 0x48B2_364B
    ensures Eight(168) == 0xD80D_2BDA && Eight(169) == 0xAF0A_1B4C && Eight(170) == 0x3603_4AF6 && Eight(171) == 0x4104_7A60
    ensures Eight(172) == 0xDF60_EFC3 && Eight(173) == 0xA867_DF55 && Eight(174) == 0x316E_8EEF && Eight(175) == 0x4669_BE79
  {
  }

  lemma Row11Values()
    ensures Eight(176) == 0xCB61_B38C && Eight(177) == 0xBC66_831A && Eight(178) == 0x256F_D2A0 && Eight(179) == 0x5268_E236
    ensures Eight(180) == 0xCC0C_7795 && Eight(181) == 0xBB0B_4703 && Eight(182) == 0x2202_16B9 && Eight(183) == 0x5505_262F
    ensures Eight(184) == 0xC5BA_3BBE && Eight(185) == 0xB2BD_0B28 && Eight(186) == 0x2BB4_5A92 && Eight(187) == 0x5CB3_6A04
    ensures Eight(188) == 0xC2D7_FFA7 && Eight(189) == 0xB5D0_CF31 && Eight(190) == 0x2CD9_9E8B && Eight(191) == 0x5BDE_AE1D
  {
  }

  lemma Row12Values()
    ensures Eight(192) == 0x9B64_C2B0 && Eight(193) == 0xEC63_F226 && Eight(194) == 0x756A_A39C && Eight(195) == 0x026D_930A
    ensures Eight(196) == 0x9C09_06A9 && Eight(197) == 0xEB0E_363F && Eight(198) == 0x7207_6785 && Eight(199) == 0x0500_5713
    ensures Eight(200) == 0x95BF_4A82 && Eight(201) == 0xE2B8_7A14 && Eight(202) == 0x7BB1_2BAE && Eight(203) == 0x0CB6_1B38
    ensures Eight(204) == 0x92D2_8E9B && Eight(205) == 0xE5D5_BE0D && Eight(206) == 0x7CDC_EFB7 && Eight(207) == 0x0BDB_DF21
  {
  }

  lemma Row13Values()
    ensures Eight(208) == 0x86D3_D2D4 && Eight(209) == 0xF1D4_E242 && Eight(210) == 0x68DD_B3F8 && Eight(211) == 0x1FDA_836E
    ensures Eight(212) == 0x81BE_16CD && Eight(213) == 0xF6B9_265B && Eight(214) == 0x6FB0_77E1 && Eight(215) == 0x18B7_4777
    ensures Eight(216) == 0x8808_5AE6 && Eight(217) == 0xFF0F_6A70 && Eight(218) == 0x6606_3BCA && Eight(219) == 0x1101_0B5C
    ensures Eight(220) == 0x8F65_9EFF && Eight(221) == 0xF862_AE69 && Eight(222) == 0x616B_FFD3 && Eight(223) == 0x166C_CF45
  {
  }

  lemma Row14Values()
    ensures Eight(224) == 0xA00A_E278 && Eight(225) == 0xD70D_D2EE && Eight(226) == 0x4E04_8354 && Eight(227) == 0x3903_B3C2
    ensures Eight(228) == 0xA767_2661 && Eight(229) == 0xD060_16F7 && Eight(230) == 0x4969_474D && Eight(231) == 0x3E6E_77DB
    ensures Eight(232) == 0xAED1_6A4A && Eight(233) == 0xD9D6_5ADC && Eight(234) == 0x40DF_0B66 && Eight(235) == 0x37D8_3BF0
    ensures Eight(236) == 0xA9BC_AE53 && Eight(237) == 0xDEBB_9EC5 && Eight(238) == 0x47B2_CF7F && Eight(239) == 0x30B5_FFE9
  {
  }

  lemma Row15Values()
    ensures Eight(240) == 0xBDBD_F21C && Eight(241) == 0xCABA_C28A && Eight(242) == 0x53B3_9330 && Eight(243) == 0x24B4_A3A6
    ensures Eight(244) == 0xBAD0_3605 && Eight(245) == 0xCDD7_0693 && Eight(246) == 0x54DE_5729 && Eight(247) == 0x23D9_67BF
    ensures Eight(248) == 0xB366_7A2E && Eight(249) == 0xC461_4AB8 && Eight(250) == 0x5D68_1B02 && Eight(251) == 0x2A6F_2B94
    ensures Eight(252) == 0xB40B_BE37 && Eight(253) == 0xC30C_8EA1 && Eight(254) == 0x5A05_DF1B && Eight(255) == 0x2D02_EF8D
  {
  }

  lemma Row0Right(b: bv32)
    requires 0 <= b < 16
    ensures Row0(b) == Eight(b)
  {
    hide Eight;
    Row0Values();
  }

  lemma Row1Right(b: bv32)
    requires 16 <= b < 32
    ensures Row1(b) == Eight(b)
  {
    hide Eight;
    Row1Values();
  }

  lemma Row2Right(b: bv32)
    requires 32 <= b < 48
    ensures Row2(b) == Eight(b)
  {
    hide Eight;
    Row2Values();
  }

  lemma Row3Right(b: bv32)
    requires 48 <= b < 64
    ensures Row3(b) == Eight(b)
  {
    hide Eight;
    Row3Values();
  }

  lemma Row4Right(b: bv32)
    requires 64 <= b < 80
    ensures Row4(b) == Eight(b)
  {
    hide Eight;
    Row4Values();
  }

  lemma Row5Right(b: bv32)
    requires 80 <= b < 96
    ensures Row5(b) == Eight(b)
  {
    hide Eight;
    Row5Values();
  }

  lemma Row6Right(b: bv32)
    requires 96 <= b < 112
    ensures Row6(b) == Eight(b)
  {
    hide Eight;
    Row6Values();
  }

  lemma Row7Right(b: bv32)
    requires 112 <= b < 128
    ensures Row7(b) == Eight(b)
  {
    hide Eight;
    Row7Values();
  }

  lemma Row8Right(b: bv32)
    requires 128 <= b < 144
    ensures Row8(b) == Eight(b)
  {
    hide Eight;
    Row8Values();
  }

  lemma Row9Right(b: bv32)
    requires 144 <= b < 160
    ensures Row9(b) == Eight(b)
  {
    hide Eight;
    Row9Values();
  }

  lemma Row10Right(b: bv32)
    requires 160 <= b < 176
    ensures Row10(b) == Eight(b)
  {
    hide Eight;
    Row10Values();
  }

  lemma Row11Right(b: bv32)
    requires 176 <= b < 192
    ensures Row11(b) == Eight(b)
  {
    hide Eight;
    Row11Values();
  }

  lemma Row12Right(b: bv32)
    requires 192 <= b < 208
    ensures Row12(b) == Eight(b)
  {
    hide Eight;
    Row12Values();
  }

  lemma Row13Right(b: bv32)
    requires 208 <= b < 224
    ensures Row13(b) == Eight(b)
  {
    hide Eight;
    Row13Values();
  }

  lemma Row14Right(b: bv32)
    requires 224 <= b < 240
    ensures Row14(b) == Eight(b)
  {
    hide Eight;
    Row14Values();
  }

  lemma Row15Right(b: bv32)
    requires 240 <= b < 256
    ensures Row15(b) == Eight(b)
  {
    hide Eight;
    Row15Values();
  }

  /** Each of the 256 literals of the table is what eight steps make of its index. */
  lemma TableRight(b: bv32)
    requires b < 256
    ensures Entry(b) == Eight(b)
  {
    hide Eight;
    hide Row0, Row1, Row2, Row3, Row4, Row5, Row6, Row7, Row8, Row9, Row10, Row11, Row12, Row13, Row14, Row15;
    if b < 16 {
      Row0Right(b);
    } else if b < 32 {
      Row1Right(b);
    } else if b < 48 {
      Row2Right(b);
    } else if b < 64 {
      Row3Right(b);
    } else if b < 80 {
      Row4Right(b);
    } else if b < 96 {
      Row5Right(b);
    } else if b < 112 {
      Row6Right(b);
    } else if b < 128 {
      Row7Right(b);
    } else if b < 144 {
      Row8Right(b);
    } else if b < 160 {
      Row9Right(b);
    } else if b < 176 {
      Row10Right(b);
    } else if b < 192 {
      Row11Right(b);
    } else if b < 208 {
      Row12Right(b);
    } else if b < 224 {
      Row13Right(b);
    } else if b < 240 {
      Row14Right(b);
    } else {
      Row15Right(b);
    }
  }

  /** The register after the bytes p have been added in, each followed by eight steps. */
  function Updated(crc: bv32, p: seq<bv8>): bv32 {
    if p == [] then crc else Eight(Xor(Updated(crc, p[..|p| - 1]), p[|p| - 1] as bv32))
  }

  /** crc32_update. */
  method Update(crc: bv32, p: seq<bv8>) returns (crcword: bv32)
    ensures crcword == Updated(crc, p)
  {
    hide Eight, Entry, Xor, Lower, Upper;
    crcword := crc;
    var i := 0;
    while i < |p|
      invariant 0 <= i <= |p| && crcword == Updated(crc, p[..i])
    {
      assert p[..i + 1][..i] == p[..i];
      var newbyte := p[i] as bv32;
      ByteStep(crcword, newbyte);
      newbyte := Xor(newbyte, Lower(crcword));
      crcword := Xor(Upper(crcword), Entry(newbyte));
      i := i + 1;
    }
    assert p[..i] == p;
  }

  lemma ByteStep(crc: bv32, b: bv32)
    requires b < 256
    ensures Xor(b, Lower(crc)) < 256
    ensures Xor(Upper(crc), Entry(Xor(b, Lower(crc)))) == Eight(Xor(crc, b))
  {
    hide Eight, Entry, Xor, Lower, Upper;
    ByteApart(Xor(crc, b));
    ByteParts(crc, b);
    TableRight(Xor(b, Lower(crc)));
  }

  lemma ByteParts(crc: bv32, b: bv32)
    requires b < 256
    ensures Upper(Xor(crc, b)) == Upper(crc) && Lower(Xor(crc, b)) == Xor(b, Lower(crc)) && Xor(b, Lower(crc)) < 256
  {
  }
}
