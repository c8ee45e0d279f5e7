/**
 * The companion web server's mu-law decoding table (`ulawToLinear`), and
 * the proof that every entry is what the firmware's decoder computes for
 * that byte.
 */
module ServerTable {
  import opened Common
  import G711
  /** `ulawToLinear`, written as sixteen rows of sixteen entries: row k holds bytes 16k to 16k + 15. */
  const Rows: seq<seq<int16>> := [Row0, Row1, Row2, Row3, Row4, Row5, Row6, Row7, Row8, Row9, RowA, RowB, RowC, RowD, RowE, RowF]

  /** `ulawToLinear`: the 16-bit sample for each mu-law byte. */
  const Table: seq<int16> := seq(256, b requires 0 <= b < 256 => Rows[b / 16][b % 16])

  const Row0: seq<int16> := [-32124, -31100, -30076, -29052, -28028, -27004, -25980, -24956, -23932, -22908, -21884, -20860, -19836, -18812, -17788, -16764]
  const Row1: seq<int16> := [-15996, -15484, -14972, -14460, -13948, -13436, -12924, -12412, -11900, -11388, -10876, -10364, -9852, -9340, -8828, -8316]
  const Row2: seq<int16> := [-7932, -7676, -7420, -7164, -6908, -6652, -6396, -6140, -5884, -5628, -5372, -5116, -4860, -4604, -4348, -4092]
  const Row3: seq<int16> := [-3900, -3772, -3644, -3516, -3388, -3260, -3132, -3004, -2876, -2748, -2620, -2492, -2364, -2236, -2108, -1980]
  const Row4: seq<int16> := [-1884, -1820, -1756, -1692, -1628, -1564, -1500, -1436, -1372, -1308, -1244, -1180, -1116, -1052, -988, -924]
  const Row5: seq<int16> := [-876, -844, -812, -780, -748, -716, -684, -652, -620, -588, -556, -524, -492, -460, -428, -396]
  const Row6: seq<int16> := [-372, -356, -340, -324, -308, -292, -276, -260, -244, -228, -212, -196, -180, -164, -148, -132]
  const Row7: seq<int16> := [-120, -112, -104, -96, -88, -80, -72, -64, -56, -48, -40, -32, -24, -16, -8, 0]
  const Row8: seq<int16> := [32124, 31100, 30076, 29052, 28028, 27004, 25980, 24956, 23932, 22908, 21884, 20860, 19836, 18812, 17788, 16764]
  const Row9: seq<int16> := [15996, 15484, 14972, 14460, 13948, 13436, 12924, 12412, 11900, 11388, 10876, 10364, 9852, 9340, 8828, 8316]
  const RowA: seq<int16> := [7932, 7676, 7420, 7164, 6908, 6652, 6396, 6140, 5884, 5628, 5372, 5116, 4860, 4604, 4348, 4092]
  const RowB: seq<int16> := [3900, 3772, 3644, 3516, 3388, 3260, 3132, 3004, 2876, 2748, 2620, 2492, 2364, 2236, 2108, 1980]
  const RowC: seq<int16> := [1884, 1820, 1756, 1692, 1628, 1564, 1500, 1436, 1372, 1308, 1244, 1180, 1116, 1052, 988, 924]
  const RowD: seq<int16> := [876, 844, 812, 780, 748, 716, 684, 652, 620, 588, 556, 524, 492, 460, 428, 396]
  const RowE: seq<int16> := [372, 356, 340, 324, 308, 292, 276, 260, 244, 228, 212, 196, 180, 164, 148, 132]
  const RowF: seq<int16> := [120, 112, 104, 96, 88, 80, 72, 64, 56, 48, 40, 32, 24, 16, 8, 0]

  lemma TableLength()
    ensures |Table| == 256
  {}

  /** Each entry of the server's table is what the firmware's decoder computes for that byte. */
  lemma TableAgrees(b: byte)
    ensures |Table| == 256 && Table[b] == G711.UlawToLinear(b)
  {
    if b < 16 {
      Row0Agrees(b);
    } else if b < 32 {
      Row1Agrees(b);
    } else if b < 48 {
      Row2Agrees(b);
    } else if b < 64 {
      Row3Agrees(b);
    } else if b < 80 {
      Row4Agrees(b);
    } else if b < 96 {
      Row5Agrees(b);
    } else if b < 112 {
      Row6Agrees(b);
    } else if b < 128 {
      Row7Agrees(b);
    } else if b < 144 {
      Row8Agrees(b);
    } else if b < 160 {
      Row9Agrees(b);
    } else if b < 176 {
      RowAAgrees(b);
    } else if b < 192 {
      RowBAgrees(b);
    } else if b < 208 {
      RowCAgrees(b);
    } else if b < 224 {
      RowDAgrees(b);
    } else if b < 240 {
      RowEAgrees(b);
    } else {
      RowFAgrees(b);
    }
  }

  lemma Row0Agrees(b: byte)
    requires 0 <= b < 16
    ensures |Table| == 256 && Table[b] == G711.UlawToLinear(b)
  {
    if b < 8 {
      Row0LowAgrees(b);
    } else {
      Row0HighAgrees(b);
    }
  }

  lemma Row0LowAgrees(b: byte)
    requires 0 <= b < 8
    ensures |Table| == 256 && Table[b] == G711.UlawToLinear(b)
  {
    TableLength();
    if b == 0 {
      assert Table[0] == G711.UlawToLinear(0);
    } else if b == 1 {
      assert Table[1] == G711.UlawToLinear(1);
    } else if b == 2 {
      assert Table[2] == G711.UlawToLinear(2);
    } else if b == 3 {
      assert Table[3] == G711.UlawToLinear(3);
    } else if b == 4 {
      assert Table[4] == G711.UlawToLinear(4);
    } else if b == 5 {
      assert Table[5] == G711.UlawToLinear(5);
    } else if b == 6 {
      assert Table[6] == G711.UlawToLinear(6);
    } else {
      assert Table[7] == G711.UlawToLinear(7);
    }
  }

  lemma Row0HighAgrees(b: byte)
    requires 8 <= b < 16
    ensures |Table| == 256 && Table[b] == G711.UlawToLinear(b)
  {
    TableLength();
    if b == 8 {
      assert Table[8] == G711.UlawToLinear(8);
    } else if b == 9 {
      assert Table[9] == G711.UlawToLinear(9);
    } else if b == 10 {
      assert Table[10] == G711.UlawToLinear(10);
    } else if b == 11 {
      assert Table[11] == G711.UlawToLinear(11);
    } else if b == 12 {
      assert Table[12] == G711.UlawToLinear(12);
    } else if b == 13 {
      assert Table[13] == G711.UlawToLinear(13);
    } else if b == 14 {
      assert Table[14] == G711.UlawToLinear(14);
    } else {
      assert Table[15] == G711.UlawToLinear(15);
    }
  }

  lemma Row1Agrees(b: byte)
    requires 16 <= b < 32
    ensures |Table| == 256 && Table[b] == G711.UlawToLinear(b)
  {
    if b < 24 {
      Row1LowAgrees(b);
    } else {
      Row1HighAgrees(b);
    }
  }

  lemma Row1LowAgrees(b: byte)
    requires 16 <= b < 24
    ensures |Table| == 256 && Table[b] == G711.UlawToLinear(b)
  {
    TableLength();
    if b == 16 {
      assert Table[16] == G711.UlawToLinear(16);
    } else if b == 17 {
      assert Table[17] == G711.UlawToLinear(17);
    } else if b == 18 {
      assert Table[18] == G711.UlawToLinear(18);
    } else if b == 19 {
      assert Table[19] == G711.UlawToLinear(19);
    } else if b == 20 {
      assert Table[20] == G711.UlawToLinear(20);
    } else if b == 21 {
      assert Table[21] == G711.UlawToLinear(21);
    } else if b == 22 {
      assert Table[22] == G711.UlawToLinear(22);
    } else {
      assert Table[23] == G711.UlawToLinear(23);
    }
  }

  lemma Row1HighAgrees(b: byte)
    requires 24 <= b < 32
    ensures |Table| == 256 && Table[b] == G711.UlawToLinear(b)
  {
    TableLength();
    if b == 24 {
      assert Table[24] == G711.UlawToLinear(24);
    } else if b == 25 {
      assert Table[25] == G711.UlawToLinear(25);
    } else if b == 26 {
      assert Table[26] == G711.UlawToLinear(26);
    } else if b == 27 {
      assert Table[27] == G711.UlawToLinear(27);
    } else if b == 28 {
      assert Table[28] == G711.UlawToLinear(28);
    } else if b == 29 {
      assert Table[29] == G711.UlawToLinear(29);
    } else if b == 30 {
      assert Table[30] == G711.UlawToLinear(30);
    } else {
      assert Table[31] == G711.UlawToLinear(31);
    }
  }

  lemma Row2Agrees(b: byte)
    requires 32 <= b < 48
    ensures |Table| == 256 && Table[b] == G711.UlawToLinear(b)
  {
    if b < 40 {
      Row2LowAgrees(b);
    } else {
      Row2HighAgrees(b);
    }
  }

  lemma Row2LowAgrees(b: byte)
    requires 32 <= b < 40
    ensures |Table| == 256 && Table[b] == G711.UlawToLinear(b)
  {
    TableLength();
    if b == 32 {
      assert Table[32] == G711.UlawToLinear(32);
    } else if b == 33 {
      assert Table[33] == G711.UlawToLinear(33);
    } else if b == 34 {
      assert Table[34] == G711.UlawToLinear(34);
    } else if b == 35 {
      assert Table[35] == G711.UlawToLinear(35);
    } else if b == 36 {
      assert Table[36] == G711.UlawToLinear(36);
    } else if b == 37 {
      assert Table[37] == G711.UlawToLinear(37);
    } else if b == 38 {
      assert Table[38] == G711.UlawToLinear(38);
    } else {
      assert Table[39] == G711.UlawToLinear(39);
    }
  }

  lemma Row2HighAgrees(b: byte)
    requires 40 <= b < 48
    ensures |Table| == 256 && Table[b] == G711.UlawToLinear(b)
  {
    TableLength();
    if b == 40 {
      assert Table[40] == G711.UlawToLinear(40);
    } else if b == 41 {
      assert Table[41] == G711.UlawToLinear(41);
    } else if b == 42 {
      assert Table[42] == G711.UlawToLinear(42);
    } else if b == 43 {
      assert Table[43] == G711.UlawToLinear(43);
    } else if b == 44 {
      assert Table[44] == G711.UlawToLinear(44);
    } else if b == 45 {
      assert Table[45] == G711.UlawToLinear(45);
    } else if b == 46 {
      assert Table[46] == G711.UlawToLinear(46);
    } else {
      assert Table[47] == G711.UlawToLinear(47);
    }
  }

  lemma Row3Agrees(b: byte)
    requires 48 <= b < 64
    ensures |Table| == 256 && Table[b] == G711.UlawToLinear(b)
  {
    if b < 56 {
      Row3LowAgrees(b);
    } else {
      Row3HighAgrees(b);
    }
  }

  lemma Row3LowAgrees(b: byte)
    requires 48 <= b < 56
    ensures |Table| == 256 && Table[b] == G711.UlawToLinear(b)
  {
    TableLength();
    if b == 48 {
      assert Table[48] == G711.UlawToLinear(48);
    } else if b == 49 {
      assert Table[49] == G711.UlawToLinear(49);
    } else if b == 50 {
      assert Table[50] == G711.UlawToLinear(50);
    } else if b == 51 {
      assert Table[51] == G711.UlawToLinear(51);
    } else if b == 52 {
      assert Table[52] == G711.UlawToLinear(52);
    } else if b == 53 {
      assert Table[53] == G711.UlawToLinear(53);
    } else if b == 54 {
      assert Table[54] == G711.UlawToLinear(54);
    } else {
      assert Table[55] == G711.UlawToLinear(55);
    }
  }

  lemma Row3HighAgrees(b: byte)
    requires 56 <= b < 64
    ensures |Table| == 256 && Table[b] == G711.UlawToLinear(b)
  {
    TableLength();
    if b == 56 {
      assert Table[56] == G711.UlawToLinear(56);
    } else if b == 57 {
      assert Table[57] == G711.UlawToLinear(57);
    } else if b == 58 {
      assert Table[58] == G711.UlawToLinear(58);
    } else if b == 59 {
      assert Table[59] == G711.UlawToLinear(59);
    } else if b == 60 {
      assert Table[60] == G711.UlawToLinear(60);
    } else if b == 61 {
      assert Table[61] == G711.UlawToLinear(61);
    } else if b == 62 {
      assert Table[62] == G711.UlawToLinear(62);
    } else {
      assert Table[63] == G711.UlawToLinear(63);
    }
  }

  lemma Row4Agrees(b: byte)
    requires 64 <= b < 80
    ensures |Table| == 256 && Table[b] == G711.UlawToLinear(b)
  {
    if b < 72 {
      Row4LowAgrees(b);
    } else {
      Row4HighAgrees(b);
    }
  }

  lemma Row4LowAgrees(b: byte)
    requires 64 <= b < 72
    ensures |Table| == 256 && Table[b] == G711.UlawToLinear(b)
  {
    TableLength();
    if b == 64 {
      assert Table[64] == G711.UlawToLinear(64);
    } else if b == 65 {
      assert Table[65] == G711.UlawToLinear(65);
    } else if b == 66 {
      assert Table[66] == G711.UlawToLinear(66);
    } else if b == 67 {
      assert Table[67] == G711.UlawToLinear(67);
    } else if b == 68 {
      assert Table[68] == G711.UlawToLinear(68);
    } else if b == 69 {
      assert Table[69] == G711.UlawToLinear(69);
    } else if b == 70 {
      assert Table[70] == G711.UlawToLinear(70);
    } else {
      assert Table[71] == G711.UlawToLinear(71);
    }
  }

  lemma Row4HighAgrees(b: byte)
    requires 72 <= b < 80
    ensures |Table| == 256 && Table[b] == G711.UlawToLinear(b)
  {
    TableLength();
    if b == 72 {
      assert Table[72] == G711.UlawToLinear(72);
    } else if b == 73 {
      assert Table[73] == G711.UlawToLinear(73);
    } else if b == 74 {
      assert Table[74] == G711.UlawToLinear(74);
    } else if b == 75 {
      assert Table[75] == G711.UlawToLinear(75);
    } else if b == 76 {
      assert Table[76] == G711.UlawToLinear(76);
    } else if b == 77 {
      assert Table[77] == G711.UlawToLinear(77);
    } else if b == 78 {
      assert Table[78] == G711.UlawToLinear(78);
    } else {
      assert Table[79] == G711.UlawToLinear(79);
    }
  }

  lemma Row5Agrees(b: byte)
    requires 80 <= b < 96
    ensures |Table| == 256 && Table[b] == G711.UlawToLinear(b)
  {
    if b < 88 {
      Row5LowAgrees(b);
    } else {
      Row5HighAgrees(b);
    }
  }

  lemma Row5LowAgrees(b: byte)
    requires 80 <= b < 88
    ensures |Table| == 256 && Table[b] == G711.UlawToLinear(b)
  {
    TableLength();
    if b == 80 {
      assert Table[80] == G711.UlawToLinear(80);
    } else if b == 81 {
      assert Table[81] == G711.UlawToLinear(81);
    } else if b == 82 {
      assert Table[82] == G711.UlawToLinear(82);
    } else if b == 83 {
      assert Table[83] == G711.UlawToLinear(83);
    } else if b == 84 {
      assert Table[84] == G711.UlawToLinear(84);
    } else if b == 85 {
      assert Table[85] == G711.UlawToLinear(85);
    } else if b == 86 {
      assert Table[86] == G711.UlawToLinear(86);
    } else {
      assert Table[87] == G711.UlawToLinear(87);
    }
  }

  lemma Row5HighAgrees(b: byte)
    requires 88 <= b < 96
    ensures |Table| == 256 && Table[b] == G711.UlawToLinear(b)
  {
    TableLength();
    if b == 88 {
      assert Table[88] == G711.UlawToLinear(88);
    } else if b == 89 {
      assert Table[89] == G711.UlawToLinear(89);
    } else if b == 90 {
      assert Table[90] == G711.UlawToLinear(90);
    } else if b == 91 {
      assert Table[91] == G711.UlawToLinear(91);
    } else if b == 92 {
      assert Table[92] == G711.UlawToLinear(92);
    } else if b == 93 {
      assert Table[93] == G711.UlawToLinear(93);
    } else if b == 94 {
      assert Table[94] == G711.UlawToLinear(94);
    } else {
      assert Table[95] == G711.UlawToLinear(95);
    }
  }

  lemma Row6Agrees(b: byte)
    requires 96 <= b < 112
    ensures |Table| == 256 && Table[b] == G711.UlawToLinear(b)
  {
    if b < 104 {
      Row6LowAgrees(b);
    } else {
      Row6HighAgrees(b);
    }
  }

  lemma Row6LowAgrees(b: byte)
    requires 96 <= b < 104
    ensures |Table| == 256 && Table[b] == G711.UlawToLinear(b)
  {
    TableLength();
    if b == 96 {
      assert Table[96] == G711.UlawToLinear(96);
    } else if b == 97 {
      assert Table[97] == G711.UlawToLinear(97);
    } else if b == 98 {
      assert Table[98] == G711.UlawToLinear(98);
    } else if b == 99 {
      assert Table[99] == G711.UlawToLinear(99);
    } else if b == 100 {
      assert Table[100] == G711.UlawToLinear(100);
    } else if b == 101 {
      assert Table[101] == G711.UlawToLinear(101);
    } else if b == 102 {
      assert Table[102] == G711.UlawToLinear(102);
    } else {
      assert Table[103] == G711.UlawToLinear(103);
    }
  }

  lemma Row6HighAgrees(b: byte)
    requires 104 <= b < 112
    ensures |Table| == 256 && Table[b] == G711.UlawToLinear(b)
  {
    TableLength();
    if b == 104 {
      assert Table[104] == G711.UlawToLinear(104);
    } else if b == 105 {
      assert Table[105] == G711.UlawToLinear(105);
    } else if b == 106 {
      assert Table[106] == G711.UlawToLinear(106);
    } else if b == 107 {
      assert Table[107] == G711.UlawToLinear(107);
    } else if b == 108 {
      assert Table[108] == G711.UlawToLinear(108);
    } else if b == 109 {
      assert Table[109] == G711.UlawToLinear(109);
    } else if b == 110 {
      assert Table[110] == G711.UlawToLinear(110);
    } else {
      assert Table[111] == G711.UlawToLinear(111);
    }
  }

  lemma Row7Agrees(b: byte)
    requires 112 <= b < 128
    ensures |Table| == 256 && Table[b] == G711.UlawToLinear(b)
  {
    if b < 120 {
      Row7LowAgrees(b);
    } else {
      Row7HighAgrees(b);
    }
  }

  lemma Row7LowAgrees(b: byte)
    requires 112 <= b < 120
    ensures |Table| == 256 && Table[b] == G711.UlawToLinear(b)
  {
    TableLength();
    if b == 112 {
      assert Table[112] == G711.UlawToLinear(112);
    } else if b == 113 {
      assert Table[113] == G711.UlawToLinear(113);
    } else if b == 114 {
      assert Table[114] == G711.UlawToLinear(114);
    } else if b == 115 {
      assert Table[115] == G711.UlawToLinear(115);
    } else if b == 116 {
      assert Table[116] == G711.UlawToLinear(116);
    } else if b == 117 {
      assert Table[117] == G711.UlawToLinear(117);
    } else if b == 118 {
      assert Table[118] == G711.UlawToLinear(118);
    } else {
      assert Table[119] == G711.UlawToLinear(119);
    }
  }

  lemma Row7HighAgrees(b: byte)
    requires 120 <= b < 128
    ensures |Table| == 256 && Table[b] == G711.UlawToLinear(b)
  {
    TableLength();
    if b == 120 {
      assert Table[120] == G711.UlawToLinear(120);
    } else if b == 121 {
      assert Table[121] == G711.UlawToLinear(121);
    } else if b == 122 {
      assert Table[122] == G711.UlawToLinear(122);
    } else if b == 123 {
      assert Table[123] == G711.UlawToLinear(123);
    } else if b == 124 {
      assert Table[124] == G711.UlawToLinear(124);
    } else if b == 125 {
      assert Table[125] == G711.UlawToLinear(125);
    } else if b == 126 {
      assert Table[126] == G711.UlawToLinear(126);
    } else {
      assert Table[127] == G711.UlawToLinear(127);
    }
  }

  lemma Row8Agrees(b: byte)
    requires 128 <= b < 144
    ensures |Table| == 256 && Table[b] == G711.UlawToLinear(b)
  {
    if b < 136 {
      Row8LowAgrees(b);
    } else {
      Row8HighAgrees(b);
    }
  }

  lemma Row8LowAgrees(b: byte)
    requires 128 <= b < 136
    ensures |Table| == 256 && Table[b] == G711.UlawToLinear(b)
  {
    TableLength();
    if b == 128 {
      assert Table[128] == G711.UlawToLinear(128);
    } else if b == 129 {
      assert Table[129] == G711.UlawToLinear(129);
    } else if b == 130 {
      assert Table[130] == G711.UlawToLinear(130);
    } else if b == 131 {
      assert Table[131] == G711.UlawToLinear(131);
    } else if b == 132 {
      assert Table[132] == G711.UlawToLinear(132);
    } else if b == 133 {
      assert Table[133] == G711.UlawToLinear(133);
    } else if b == 134 {
      assert Table[134] == G711.UlawToLinear(134);
    } else {
      assert Table[135] == G711.UlawToLinear(135);
    }
  }

  lemma Row8HighAgrees(b: byte)
    requires 136 <= b < 144
    ensures |Table| == 256 && Table[b] == G711.UlawToLinear(b)
  {
    TableLength();
    if b == 136 {
      assert Table[136] == G711.UlawToLinear(136);
    } else if b == 137 {
      assert Table[137] == G711.UlawToLinear(137);
    } else if b == 138 {
      assert Table[138] == G711.UlawToLinear(138);
    } else if b == 139 {
      assert Table[139] == G711.UlawToLinear(139);
    } else if b == 140 {
      assert Table[140] == G711.UlawToLinear(140);
    } else if b == 141 {
      assert Table[141] == G711.UlawToLinear(141);
    } else if b == 142 {
      assert Table[142] == G711.UlawToLinear(142);
    } else {
      assert Table[143] == G711.UlawToLinear(143);
    }
  }

  lemma Row9Agrees(b: byte)
    requires 144 <= b < 160
    ensures |Table| == 256 && Table[b] == G711.UlawToLinear(b)
  {
    if b < 152 {
      Row9LowAgrees(b);
    } else {
      Row9HighAgrees(b);
    }
  }

  lemma Row9LowAgrees(b: byte)
    requires 144 <= b < 152
    ensures |Table| == 256 && Table[b] == G711.UlawToLinear(b)
  {
    TableLength();
    if b == 144 {
      assert Table[144] == G711.UlawToLinear(144);
    } else if b == 145 {
      assert Table[145] == G711.UlawToLinear(145);
    } else if b == 146 {
      assert Table[146] == G711.UlawToLinear(146);
    } else if b == 147 {
      assert Table[147] == G711.UlawToLinear(147);
    } else if b == 148 {
      assert Table[148] == G711.UlawToLinear(148);
    } else if b == 149 {
      assert Table[149] == G711.UlawToLinear(149);
    } else if b == 150 {
      assert Table[150] == G711.UlawToLinear(150);
    } else {
      assert Table[151] == G711.UlawToLinear(151);
    }
  }

  lemma Row9HighAgrees(b: byte)
    requires 152 <= b < 160
    ensures |Table| == 256 && Table[b] == G711.UlawToLinear(b)
  {
    TableLength();
    if b == 152 {
      assert Table[152] == G711.UlawToLinear(152);
    } else if b == 153 {
      assert Table[153] == G711.UlawToLinear(153);
    } else if b == 154 {
      assert Table[154] == G711.UlawToLinear(154);
    } else if b == 155 {
      assert Table[155] == G711.UlawToLinear(155);
    } else if b == 156 {
      assert Table[156] == G711.UlawToLinear(156);
    } else if b == 157 {
      assert Table[157] == G711.UlawToLinear(157);
    } else if b == 158 {
      assert Table[158] == G711.UlawToLinear(158);
    } else {
      assert Table[159] == G711.UlawToLinear(159);
    }
  }

  lemma RowAAgrees(b: byte)
    requires 160 <= b < 176
    ensures |Table| == 256 && Table[b] == G711.UlawToLinear(b)
  {
    if b < 168 {
      RowALowAgrees(b);
    } else {
      RowAHighAgrees(b);
    }
  }

  lemma RowALowAgrees(b: byte)
    requires 160 <= b < 168
    ensures |Table| == 256 && Table[b] == G711.UlawToLinear(b)
  {
    TableLength();
    if b == 160 {
      assert Table[160] == G711.UlawToLinear(160);
    } else if b == 161 {
      assert Table[161] == G711.UlawToLinear(161);
    } else if b == 162 {
      assert Table[162] == G711.UlawToLinear(162);
    } else if b == 163 {
      assert Table[163] == G711.UlawToLinear(163);
    } else if b == 164 {
      assert Table[164] == G711.UlawToLinear(164);
    } else if b == 165 {
      assert Table[165] == G711.UlawToLinear(165);
    } else if b == 166 {
      assert Table[166] == G711.UlawToLinear(166);
    } else {
      assert Table[167] == G711.UlawToLinear(167);
    }
  }

  lemma RowAHighAgrees(b: byte)
    requires 168 <= b < 176
    ensures |Table| == 256 && Table[b] == G711.UlawToLinear(b)
  {
    TableLength();
    if b == 168 {
      assert Table[168] == G711.UlawToLinear(168);
    } else if b == 169 {
      assert Table[169] == G711.UlawToLinear(169);
    } else if b == 170 {
      assert Table[170] == G711.UlawToLinear(170);
    } else if b == 171 {
      assert Table[171] == G711.UlawToLinear(171);
    } else if b == 172 {
      assert Table[172] == G711.UlawToLinear(172);
    } else if b == 173 {
      assert Table[173] == G711.UlawToLinear(173);
    } else if b == 174 {
      assert Table[174] == G711.UlawToLinear(174);
    } else {
      assert Table[175] == G711.UlawToLinear(175);
    }
  }

  lemma RowBAgrees(b: byte)
    requires 176 <= b < 192
    ensures |Table| == 256 && Table[b] == G711.UlawToLinear(b)
  {
    if b < 184 {
      RowBLowAgrees(b);
    } else {
      RowBHighAgrees(b);
    }
  }

  lemma RowBLowAgrees(b: byte)
    requires 176 <= b < 184
    ensures |Table| == 256 && Table[b] == G711.UlawToLinear(b)
  {
    TableLength();
    if b == 176 {
      assert Table[176] == G711.UlawToLinear(176);
    } else if b == 177 {
      assert Table[177] == G711.UlawToLinear(177);
    } else if b == 178 {
      assert Table[178] == G711.UlawToLinear(178);
    } else if b == 179 {
      assert Table[179] == G711.UlawToLinear(179);
    } else if b == 180 {
      assert Table[180] == G711.UlawToLinear(180);
    } else if b == 181 {
      assert Table[181] == G711.UlawToLinear(181);
    } else if b == 182 {
      assert Table[182] == G711.UlawToLinear(182);
    } else {
      assert Table[183] == G711.UlawToLinear(183);
    }
  }

  lemma RowBHighAgrees(b: byte)
    requires 184 <= b < 192
    ensures |Table| == 256 && Table[b] == G711.UlawToLinear(b)
  {
    TableLength();
    if b == 184 {
      assert Table[184] == G711.UlawToLinear(184);
    } else if b == 185 {
      assert Table[185] == G711.UlawToLinear(185);
    } else if b == 186 {
      assert Table[186] == G711.UlawToLinear(186);
    } else if b == 187 {
      assert Table[187] == G711.UlawToLinear(187);
    } else if b == 188 {
      assert Table[188] == G711.UlawToLinear(188);
    } else if b == 189 {
      assert Table[189] == G711.UlawToLinear(189);
    } else if b == 190 {
      assert Table[190] == G711.UlawToLinear(190);
    } else {
      assert Table[191] == G711.UlawToLinear(191);
    }
  }

  lemma RowCAgrees(b: byte)
    requires 192 <= b < 208
    ensures |Table| == 256 && Table[b] == G711.UlawToLinear(b)
  {
    if b < 200 {
      RowCLowAgrees(b);
    } else {
      RowCHighAgrees(b);
    }
  }

  lemma RowCLowAgrees(b: byte)
    requires 192 <= b < 200
    ensures |Table| == 256 && Table[b] == G711.UlawToLinear(b)
  {
    TableLength();
    if b == 192 {
      assert Table[192] == G711.UlawToLinear(192);
    } else if b == 193 {
      assert Table[193] == G711.UlawToLinear(193);
    } else if b == 194 {
      assert Table[194] == G711.UlawToLinear(194);
    } else if b == 195 {
      assert Table[195] == G711.UlawToLinear(195);
    } else if b == 196 {
      assert Table[196] == G711.UlawToLinear(196);
    } else if b == 197 {
      assert Table[197] == G711.UlawToLinear(197);
    } else if b == 198 {
      assert Table[198] == G711.UlawToLinear(198);
    } else {
      assert Table[199] == G711.UlawToLinear(199);
    }
  }

  lemma RowCHighAgrees(b: byte)
    requires 200 <= b < 208
    ensures |Table| == 256 && Table[b] == G711.UlawToLinear(b)
  {
    TableLength();
    if b == 200 {
      assert Table[200] == G711.UlawToLinear(200);
    } else if b == 201 {
      assert Table[201] == G711.UlawToLinear(201);
    } else if b == 202 {
      assert Table[202] == G711.UlawToLinear(202);
    } else if b == 203 {
      assert Table[203] == G711.UlawToLinear(203);
    } else if b == 204 {
      assert Table[204] == G711.UlawToLinear(204);
    } else if b == 205 {
      assert Table[205] == G711.UlawToLinear(205);
    } else if b == 206 {
      assert Table[206] == G711.UlawToLinear(206);
    } else {
      assert Table[207] == G711.UlawToLinear(207);
    }
  }

  lemma RowDAgrees(b: byte)
    requires 208 <= b < 224
    ensures |Table| == 256 && Table[b] == G711.UlawToLinear(b)
  {
    if b < 216 {
      RowDLowAgrees(b);
    } else {
      RowDHighAgrees(b);
    }
  }

  lemma RowDLowAgrees(b: byte)
    requires 208 <= b < 216
    ensures |Table| == 256 && Table[b] == G711.UlawToLinear(b)
  {
    TableLength();
    if b == 208 {
      assert Table[208] == G711.UlawToLinear(208);
    } else if b == 209 {
      assert Table[209] == G711.UlawToLinear(209);
    } else if b == 210 {
      assert Table[210] == G711.UlawToLinear(210);
    } else if b == 211 {
      assert Table[211] == G711.UlawToLinear(211);
    } else if b == 212 {
      assert Table[212] == G711.UlawToLinear(212);
    } else if b == 213 {
      assert Table[213] == G711.UlawToLinear(213);
    } else if b == 214 {
      assert Table[214] == G711.UlawToLinear(214);
    } else {
      assert Table[215] == G711.UlawToLinear(215);
    }
  }

  lemma RowDHighAgrees(b: byte)
    requires 216 <= b < 224
    ensures |Table| == 256 && Table[b] == G711.UlawToLinear(b)
  {
    TableLength();
    if b == 216 {
      assert Table[216] == G711.UlawToLinear(216);
    } else if b == 217 {
      assert Table[217] == G711.UlawToLinear(217);
    } else if b == 218 {
      assert Table[218] == G711.UlawToLinear(218);
    } else if b == 219 {
      assert Table[219] == G711.UlawToLinear(219);
    } else if b == 220 {
      assert Table[220] == G711.UlawToLinear(220);
    } else if b == 221 {
      assert Table[221] == G711.UlawToLinear(221);
    } else if b == 222 {
      assert Table[222] == G711.UlawToLinear(222);
    } else {
      assert Table[223] == G711.UlawToLinear(223);
    }
  }

  lemma RowEAgrees(b: byte)
    requires 224 <= b < 240
    ensures |Table| == 256 && Table[b] == G711.UlawToLinear(b)
  {
    if b < 232 {
      RowELowAgrees(b);
    } else {
      RowEHighAgrees(b);
    }
  }

  lemma RowELowAgrees(b: byte)
    requires 224 <= b < 232
    ensures |Table| == 256 && Table[b] == G711.UlawToLinear(b)
  {
    TableLength();
    if b == 224 {
      assert Table[224] == G711.UlawToLinear(224);
    } else if b == 225 {
      assert Table[225] == G711.UlawToLinear(225);
    } else if b == 226 {
      assert Table[226] == G711.UlawToLinear(226);
    } else if b == 227 {
      assert Table[227] == G711.UlawToLinear(227);
    } else if b == 228 {
      assert Table[228] == G711.UlawToLinear(228);
    } else if b == 229 {
      assert Table[229] == G711.UlawToLinear(229);
    } else if b == 230 {
      assert Table[230] == G711.UlawToLinear(230);
    } else {
      assert Table[231] == G711.UlawToLinear(231);
    }
  }

  lemma RowEHighAgrees(b: byte)
    requires 232 <= b < 240
    ensures |Table| == 256 && Table[b] == G711.UlawToLinear(b)
  {
    TableLength();
    if b == 232 {
      assert Table[232] == G711.UlawToLinear(232);
    } else if b == 233 {
      assert Table[233] == G711.UlawToLinear(233);
    } else if b == 234 {
      assert Table[234] == G711.UlawToLinear(234);
    } else if b == 235 {
      assert Table[235] == G711.UlawToLinear(235);
    } else if b == 236 {
      assert Table[236] == G711.UlawToLinear(236);
    } else if b == 237 {
      assert Table[237] == G711.UlawToLinear(237);
    } else if b == 238 {
      assert Table[238] == G711.UlawToLinear(238);
    } else {
      assert Table[239] == G711.UlawToLinear(239);
    }
  }

  lemma RowFAgrees(b: byte)
    requires 240 <= b < 256
    ensures |Table| == 256 && Table[b] == G711.UlawToLinear(b)
  {
    if b < 248 {
      RowFLowAgrees(b);
    } else {
      RowFHighAgrees(b);
    }
  }

  lemma RowFLowAgrees(b: byte)
    requires 240 <= b < 248
    ensures |Table| == 256 && Table[b] == G711.UlawToLinear(b)
  {
    TableLength();
    if b == 240 {
      assert Table[240] == G711.UlawToLinear(240);
    } else if b == 241 {
      assert Table[241] == G711.UlawToLinear(241);
    } else if b == 242 {
      assert Table[242] == G711.UlawToLinear(242);
    } else if b == 243 {
      assert Table[243] == G711.UlawToLinear(243);
    } else if b == 244 {
      assert Table[244] == G711.UlawToLinear(244);
    } else if b == 245 {
      assert Table[245] == G711.UlawToLinear(245);
    } else if b == 246 {
      assert Table[246] == G711.UlawToLinear(246);
    } else {
      assert Table[247] == G711.UlawToLinear(247);
    }
  }

  lemma RowFHighAgrees(b: byte)
    requires 248 <= b < 256
    ensures |Table| == 256 && Table[b] == G711.UlawToLinear(b)
  {
    TableLength();
    if b == 248 {
      assert Table[248] == G711.UlawToLinear(248);
    } else if b == 249 {
      assert Table[249] == G711.UlawToLinear(249);
    } else if b == 250 {
      assert Table[250] == G711.UlawToLinear(250);
    } else if b == 251 {
      assert Table[251] == G711.UlawToLinear(251);
    } else if b == 252 {
      assert Table[252] == G711.UlawToLinear(252);
    } else if b == 253 {
      assert Table[253] == G711.UlawToLinear(253);
    } else if b == 254 {
      assert Table[254] == G711.UlawToLinear(254);
    } else {
      assert Table[255] == G711.UlawToLinear(255);
    }
  }

  /** The table is odd-symmetric across the sign bit and has its zeros at 0x7F and 0xFF. */
  lemma TableSymmetric(b: byte)
    requires b < 0x80
    ensures Table[b] == -Table[b + 0x80]
    ensures Table[0x7F] == 0 && Table[0xFF] == 0
  {
    TableAgrees(b);
    TableAgrees(b + 0x80);
    TableAgrees(0x7F);
    TableAgrees(0xFF);
    G711.DecodeOddSymmetric(b);
    G711.DecodeEndpoints();
  }
}
