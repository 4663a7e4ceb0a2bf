/** The hash that places a key: CRC16, computed one byte at a time from a 256-entry table. */
module HashSlot {
  import opened Gf2

  // crc16tab, in eight groups of four source lines.

  function Rows0(i: bv16): bv16 {
    match i
    case 0x00 => 0x0000 case 0x01 => 0x1021 case 0x02 => 0x2042 case 0x03 => 0x3063
    case 0x04 => 0x4084 case 0x05 => 0x50a5 case 0x06 => 0x60c6 case 0x07 => 0x70e7
    case 0x08 => 0x8108 case 0x09 => 0x9129 case 0x0a => 0xa14a case 0x0b => 0xb16b
    case 0x0c => 0xc18c case 0x0d => 0xd1ad case 0x0e => 0xe1ce case 0x0f => 0xf1ef
    case 0x10 => 0x1231 case 0x11 => 0x0210 case 0x12 => 0x3273 case 0x13 => 0x2252
    case 0x14 => 0x52b5 case 0x15 => 0x4294 case 0x16 => 0x72f7 case 0x17 => 0x62d6
    case 0x18 => 0x9339 case 0x19 => 0x8318 case 0x1a => 0xb37b case 0x1b => 0xa35a
    case 0x1c => 0xd3bd case 0x1d => 0xc39c case 0x1e => 0xf3ff case 0x1f => 0xe3de
    case _ => 0
  }

  function Rows1(i: bv16): bv16 {
    match i
    case 0x20 => 0x2462 case 0x21 => 0x3443 case 0x22 => 0x0420 case 0x23 => 0x1401
    case 0x24 => 0x64e6 case 0x25 => 0x74c7 case 0x26 => 0x44a4 case 0x27 => 0x5485
    case 0x28 => 0xa56a case 0x29 => 0xb54b case 0x2a => 0x8528 case 0x2b => 0x9509
    case 0x2c => 0xe5ee case 0x2d => 0xf5cf case 0x2e => 0xc5ac case 0x2f => 0xd58d
    case 0x30 => 0x3653 case 0x31 => 0x2672 case 0x32 => 0x1611 case 0x33 => 0x0630
    case 0x34 => 0x76d7 case 0x35 => 0x66f6 case 0x36 => 0x5695 case 0x37 => 0x46b4
    case 0x38 => 0xb75b case 0x39 => 0xa77a case 0x3a => 0x9719 case 0x3b => 0x8738
    case 0x3c => 0xf7df case 0x3d => 0xe7fe case 0x3e => 0xd79d case 0x3f => 0xc7bc
    case _ => 0
  }

  function Rows2(i: bv16): bv16 {
    match i
    case 0x40 => 0x48c4 case 0x41 => 0x58e5 case 0x42 => 0x6886 case 0x43 => 0x78a7
    case 0x44 => 0x0840 case 0x45 => 0x1861 case 0x46 => 0x2802 case 0x47 => 0x3823
    case 0x48 => 0xc9cc case 0x49 => 0xd9ed case 0x4a => 0xe98e case 0x4b => 0xf9af
    case 0x4c => 0x8948 case 0x4d => 0x9969 case 0x4e => 0xa90a case 0x4f => 0xb92b
    case 0x50 => 0x5af5 case 0x51 => 0x4ad4 case 0x52 => 0x7ab7 case 0x53 => 0x6a96
    case 0x54 => 0x1a71 case 0x55 => 0x0a50 case 0x56 => 0x3a33 case 0x57 => 0x2a12
    case 0x58 => 0xdbfd case 0x59 => 0xcbdc case 0x5a => 0xfbbf case 0x5b => 0xeb9e
    case 0x5c => 0x9b79 case 0x5d => 0x8b58 case 0x5e => 0xbb3b case 0x5f => 0xab1a
    case _ => 0
  }

  function Rows3(i: bv16): bv16 {
    match i
    case 0x60 => 0x6ca6 case 0x61 => 0x7c87 case 0x62 => 0x4ce4 case 0x63 => 0x5cc5
    case 0x64 => 0x2c22 case 0x65 => 0x3c03 case 0x66 => 0x0c60 case 0x67 => 0x1c41
    case 0x68 => 0xedae case 0x69 => 0xfd8f case 0x6a => 0xcdec case 0x6b => 0xddcd
    case 0x6c => 0xad2a case 0x6d => 0xbd0b case 0x6e => 0x8d68 case 0x6f => 0x9d49
    case 0x70 => 0x7e97 case 0x71 => 0x6eb6 case 0x72 => 0x5ed5 case 0x73 => 0x4ef4
    case 0x74 => 0x3e13 case 0x75 => 0x2e32 case 0x76 => 0x1e51 case 0x77 => 0x0e70
    case 0x78 => 0xff9f case 0x79 => 0xefbe case 0x7a => 0xdfdd case 0x7b => 0xcffc
    case 0x7c => 0xbf1b case 0x7d => 0xaf3a case 0x7e => 0x9f59 case 0x7f => 0x8f78
    case _ => 0
  }

  function Rows4(i: bv16): bv16 {
    match i
    case 0x80 => 0x9188 case 0x81 => 0x81a9 case 0x82 => 0xb1ca case 0x83 => 0xa1eb
    case 0x84 => 0xd10c case 0x85 => 0xc12d case 0x86 => 0xf14e case 0x87 => 0xe16f
    case 0x88 => 0x1080 case 0x89 => 0x00a1 case 0x8a => 0x30c2 case 0x8b => 0x20e3
    case 0x8c => 0x5004 case 0x8d => 0x4025 case 0x8e => 0x7046 case 0x8f => 0x6067
    case 0x90 => 0x83b9 case 0x91 => 0x9398 case 0x92 => 0xa3fb case 0x93 => 0xb3da
    case 0x94 => 0xc33d case 0x95 => 0xd31c case 0x96 => 0xe37f case 0x97 => 0xf35e
    case 0x98 => 0x02b1 case 0x99 => 0x1290 case 0x9a => 0x22f3 case 0x9b => 0x32d2
    case 0x9c => 0x4235 case 0x9d => 0x5214 case 0x9e => 0x6277 case 0x9f => 0x7256
    case _ => 0
  }

  function Rows5(i: bv16): bv16 {
    match i
    case 0xa0 => 0xb5ea case 0xa1 => 0xa5cb case 0xa2 => 0x95a8 case 0xa3 => 0x8589
    case 0xa4 => 0xf56e case 0xa5 => 0xe54f case 0xa6 => 0xd52c case 0xa7 => 0xc50d
    case 0xa8 => 0x34e2 case 0xa9 => 0x24c3 case 0xaa => 0x14a0 case 0xab => 0x0481
    case 0xac => 0x7466 case 0xad => 0x6447 case 0xae => 0x5424 case 0xaf => 0x4405
    case 0xb0 => 0xa7db case 0xb1 => 0xb7fa case 0xb2 => 0x8799 case 0xb3 => 0x97b8
    case 0xb4 => 0xe75f case 0xb5 => 0xf77e case 0xb6 => 0xc71d case 0xb7 => 0xd73c
    case 0xb8 => 0x26d3 case 0xb9 => 0x36f2 case 0xba => 0x0691 case 0xbb => 0x16b0
    case 0xbc => 0x6657 case 0xbd => 0x7676 case 0xbe => 0x4615 case 0xbf => 0x5634
    case _ => 0
  }

  function Rows6(i: bv16): bv16 {
    match i
    case 0xc0 => 0xd94c case 0xc1 => 0xc96d case 0xc2 => 0xf90e case 0xc3 => 0xe92f
    case 0xc4 => 0x99c8 case 0xc5 => 0x89e9 case 0xc6 => 0xb98a case 0xc7 => 0xa9ab
    case 0xc8 => 0x5844 case 0xc9 => 0x4865 case 0xca => 0x7806 case 0xcb => 0x6827
    case 0xcc => 0x18c0 case 0xcd => 0x08e1 case 0xce => 0x3882 case 0xcf => 0x28a3
    case 0xd0 => 0xcb7d case 0xd1 => 0xdb5c case 0xd2 => 0xeb3f case 0xd3 => 0xfb1e
    case 0xd4 => 0x8bf9 case 0xd5 => 0x9bd8 case 0xd6 => 0xabbb case 0xd7 => 0xbb9a
    case 0xd8 => 0x4a75 case 0xd9 => 0x5a54 case 0xda => 0x6a37 case 0xdb => 0x7a16
    case 0xdc => 0x0af1 case 0xdd => 0x1ad0 case 0xde => 0x2ab3 case 0xdf => 0x3a92
    case _ => 0
  }

  function Rows7(i: bv16): bv16 {
    match i
    case 0xe0 => 0xfd2e case 0xe1 => 0xed0f case 0xe2 => 0xdd6c case 0xe3 => 0xcd4d
    case 0xe4 => 0xbdaa case 0xe5 => 0xad8b case 0xe6 => 0x9de8 case 0xe7 => 0x8dc9
    case 0xe8 => 0x7c26 case 0xe9 => 0x6c07 case 0xea => 0x5c64 case 0xeb => 0x4c45
    case 0xec => 0x3ca2 case 0xed => 0x2c83 case 0xee => 0x1ce0 case 0xef => 0x0cc1
    case 0xf0 => 0xef1f case 0xf1 => 0xff3e case 0xf2 => 0xcf5d case 0xf3 => 0xdf7c
    case 0xf4 => 0xaf9b case 0xf5 => 0xbfba case 0xf6 => 0x8fd9 case 0xf7 => 0x9ff8
    case 0xf8 => 0x6e17 case 0xf9 => 0x7e36 case 0xfa => 0x4e55 case 0xfb => 0x5e74
    case 0xfc => 0x2e93 case 0xfd => 0x3eb2 case 0xfe => 0x0ed1 case 0xff => 0x1ef0
    case _ => 0
  }

  function Table(i: bv16): bv16 {
    match i >> 5
    case 0 => Rows0(i)
    case 1 => Rows1(i)
    case 2 => Rows2(i)
    case 3 => Rows3(i)
    case 4 => Rows4(i)
    case 5 => Rows5(i)
    case 6 => Rows6(i)
    case 7 => Rows7(i)
    case _ => 0
  }

  /** crc16 as a function: the bytes from the front, one table look-up each. */
  function Crc(m: seq<bv8>): bv16 {
    if m == [] then 0 else TableStep(Crc(m[..|m| - 1]), m[|m| - 1])
  }

  /** The body of the loop in crc16. A char is one byte here; the mask drops any sign
      extension of a negative char. */
  function TableStep(crc: bv16, b: bv8): bv16 {
    Combine(crc, Table(Index(crc, b as bv16)))
  }

  function Combine(crc: bv16, entry: bv16): bv16 {
    (crc << 8) ^ entry
  }

  function Index(crc: bv16, b: bv16): bv16 {
    ((crc >> 8) ^ b) & 0x00FF
  }

  method Crc16(buf: seq<bv8>) returns (crc: bv16)
    ensures crc == Crc(buf)
  {
    crc := 0;
    for counter := 0 to |buf|
      invariant crc == Crc(buf[..counter])
    {
      assert buf[..counter + 1][..counter] == buf[..counter];
      crc := TableStep(crc, buf[counter]);
    }
    assert buf[..|buf|] == buf;
  }

  // Words as polynomials: bit i is the coefficient of x^i.

  predicate Odd(c: bv16) {
    c & 1 == 1
  }

  function Half(c: bv16): bv16 {
    c >> 1
  }

  ghost function LowBits(c: bv16, n: nat): (p: Poly)
    ensures DegreeBelow(p, n)
    decreases n, c
  {
    if n == 0 then iset{} else Append(LowBits(Half(c), n - 1), Odd(c))
  }

  ghost function WordPoly(c: bv16): Poly {
    LowBits(c, 16)
  }

  function Drop(c: bv16, n: nat): bv16
    decreases n
  {
    if n == 0 then c else Drop(Half(c), n - 1)
  }

  // Bit-vector identities only help the solver as equations between arguments.
  lemma SameBits(c: bv16, d: bv16, n: nat)
    requires c == d
    ensures LowBits(c, n) == LowBits(d, n)
  {
  }

  lemma HalvingInjective(c: bv16, d: bv16)
    requires Half(c) == Half(d) && (Odd(c) <==> Odd(d))
    ensures c == d
  {
  }

  lemma HalvingXor(c: bv16, d: bv16, n: nat)
    ensures LowBits(c ^ d, n + 1) == Append(LowBits(Half(c) ^ Half(d), n), (Odd(c)) != (Odd(d)))
  {
    SameBits(Half(c ^ d), Half(c) ^ Half(d), n);
    AppendSame(LowBits(Half(c ^ d), n), Odd(c ^ d),
               LowBits(Half(c) ^ Half(d), n), (Odd(c)) != (Odd(d)));
  }

  lemma HalvingMask(c: bv16, m: bv16, n: nat)
    requires Odd(m)
    ensures LowBits(c & m, n + 1) == Append(LowBits(Half(c) & Half(m), n), Odd(c))
  {
    SameBits(Half(c & m), Half(c) & Half(m), n);
    AppendSame(LowBits(Half(c & m), n), Odd(c & m), LowBits(Half(c) & Half(m), n), Odd(c));
  }

  lemma {:induction false} LowBitsXor(c: bv16, d: bv16, n: nat)
    ensures LowBits(c ^ d, n) == Add(LowBits(c, n), LowBits(d, n))
    decreases n
  {
    if n > 0 {
      HalvingXor(c, d, n - 1);
      LowBitsXor(Half(c), Half(d), n - 1);
      AppendAdd(LowBits(Half(c), n - 1), Odd(c), LowBits(Half(d), n - 1), Odd(d));
    }
  }

  /** m is n ones. */
  predicate IsMask(m: bv16, n: nat)
    decreases n
  {
    if n == 0 then m == 0 else Odd(m) && IsMask(Half(m), n - 1)
  }

  lemma {:induction false} LowBitsMask(c: bv16, m: bv16, n: nat)
    requires IsMask(m, n)
    ensures LowBits(c & m, n) == LowBits(c, n)
    decreases n
  {
    if n > 0 {
      HalvingMask(c, m, n - 1);
      LowBitsMask(Half(c), Half(m), n - 1);
    }
  }

  lemma {:induction false} LowBitsSplit(c: bv16, j: nat, n: nat)
    ensures LowBits(c, j + n) == Add(LowBits(c, j), Shift(LowBits(Drop(c, j), n), j))
    decreases j
  {
    if j == 0 {
      assert Shift(LowBits(c, n), 0) == LowBits(c, n);
    } else {
      LowBitsSplit(Half(c), j - 1, n);
      AppendSplit(LowBits(Half(c), j - 1), LowBits(Drop(c, j), n), j, Odd(c));
    }
  }

  lemma {:induction false} LowBitsInjective(c: bv16, d: bv16, n: nat)
    requires LowBits(c, n) == LowBits(d, n) && Drop(c, n) == Drop(d, n)
    ensures c == d
    decreases n
  {
    if n == 0 {
    } else {
      AppendInjective(LowBits(Half(c), n - 1), LowBits(Half(d), n - 1), Odd(c), Odd(d));
      LowBitsInjective(Half(c), Half(d), n - 1);
      HalvingInjective(c, d);
    }
  }

  lemma {:induction false} ZeroBits(n: nat)
    ensures LowBits(0, n) == iset{}
  {
    if n == 0 {
    } else {
      ZeroBits(n - 1);
      SameBits(Half(0), 0, n - 1);
    }
  }

  lemma DropByte(c: bv16)
    ensures Drop(c, 8) == c >> 8
  {
    assert Drop(c, 8) == Half(Half(Half(Half(Half(Half(Half(Half(c))))))));
  }

  lemma ByteMask()
    ensures IsMask(0x00FF, 8) && IsMask(0x7FFF, 15)
  {
  }

  lemma TwoBytes(c: bv16)
    ensures WordPoly(c) == Add(LowBits(c, 8), Shift(LowBits(c >> 8, 8), 8))
  {
    LowBitsSplit(c, 8, 8);
    DropByte(c);
  }

  lemma OneByte(b: bv16)
    requires b < 256
    ensures WordPoly(b) == LowBits(b, 8)
  {
    TwoBytes(b);
    SameBits(b >> 8, 0, 8);
    ZeroBits(8);
    assert Shift(iset{}, 8) == iset{};
    assert Add(LowBits(b, 8), iset{}) == LowBits(b, 8);
  }

  lemma LowByteClear(c: bv16)
    ensures LowBits(c << 8, 8) == iset{}
  {
    ByteMask();
    LowBitsMask(c << 8, 0x00FF, 8);
    SameBits((c << 8) & 0x00FF, 0, 8);
    ZeroBits(8);
  }

  lemma LowByteKept(c: bv16)
    ensures LowBits((c << 8) >> 8, 8) == LowBits(c, 8)
  {
    ByteMask();
    SameBits((c << 8) >> 8, c & 0x00FF, 8);
    LowBitsMask(c, 0x00FF, 8);
  }

  /** crc << 8, cut to 16 bits, moves the low byte up and drops the high one. */
  lemma ByteShiftPoly(c: bv16)
    ensures WordPoly(c << 8) == Shift(LowBits(c, 8), 8)
  {
    TwoBytes(c << 8);
    LowByteClear(c);
    LowByteKept(c);
    AddZero(Shift(LowBits(c, 8), 8));
  }

  lemma IndexPoly(c: bv16, b: bv16)
    requires b < 256
    ensures WordPoly(Index(c, b)) == Add(LowBits(c >> 8, 8), WordPoly(b))
  {
    OneByte(Index(c, b));
    SameBits(Index(c, b), ((c >> 8) ^ b) & 0x00FF, 8);
    OneByte(b);
    ByteMask();
    LowBitsMask((c >> 8) ^ b, 0x00FF, 8);
    LowBitsXor(c >> 8, b, 8);
  }

  // The table: entry i is the remainder of i times x^16.

  /** One step of long division: multiply the remainder by x and reduce it. */
  function BitStep(c: bv16): bv16 {
    if c & 0x8000 != 0 then (c << 1) ^ 0x1021 else c << 1
  }

  function Steps(c: bv16, n: nat): bv16
    decreases n
  {
    if n == 0 then c else BitStep(Steps(c, n - 1))
  }

  lemma EightSteps(c: bv16)
    ensures Steps(c, 8) == BitStep(BitStep(BitStep(BitStep(BitStep(BitStep(BitStep(BitStep(c))))))))
  {
    var d := Steps(c, 4);
    assert d == BitStep(BitStep(BitStep(BitStep(c))));
  }

  lemma Rows0Correct(i: bv16)
    requires i >> 5 == 0
    ensures Rows0(i) == Steps(i << 8, 8)
  {
    EightSteps(i << 8);
  }

  lemma Rows1Correct(i: bv16)
    requires i >> 5 == 1
    ensures Rows1(i) == Steps(i << 8, 8)
  {
    EightSteps(i << 8);
  }

  lemma Rows2Correct(i: bv16)
    requires i >> 5 == 2
    ensures Rows2(i) == Steps(i << 8, 8)
  {
    EightSteps(i << 8);
  }

  lemma Rows3Correct(i: bv16)
    requires i >> 5 == 3
    ensures Rows3(i) == Steps(i << 8, 8)
  {
    EightSteps(i << 8);
  }

  lemma Rows4Correct(i: bv16)
    requires i >> 5 == 4
    ensures Rows4(i) == Steps(i << 8, 8)
  {
    EightSteps(i << 8);
  }

  lemma Rows5Correct(i: bv16)
    requires i >> 5 == 5
    ensures Rows5(i) == Steps(i << 8, 8)
  {
    EightSteps(i << 8);
  }

  lemma Rows6Correct(i: bv16)
    requires i >> 5 == 6
    ensures Rows6(i) == Steps(i << 8, 8)
  {
    EightSteps(i << 8);
  }

  lemma Rows7Correct(i: bv16)
    requires i >> 5 == 7
    ensures Rows7(i) == Steps(i << 8, 8)
  {
    EightSteps(i << 8);
  }

  lemma TableEntry(i: bv16)
    requires i < 256
    ensures Table(i) == Steps(i << 8, 8)
  {
    if i >> 5 == 0 {
      Rows0Correct(i);
    } else if i >> 5 == 1 {
      Rows1Correct(i);
    } else if i >> 5 == 2 {
      Rows2Correct(i);
    } else if i >> 5 == 3 {
      Rows3Correct(i);
    } else if i >> 5 == 4 {
      Rows4Correct(i);
    } else if i >> 5 == 5 {
      Rows5Correct(i);
    } else if i >> 5 == 6 {
      Rows6Correct(i);
    } else if i >> 5 == 7 {
      Rows7Correct(i);
    }
  }

  lemma TopBit(c: bv16)
    ensures WordPoly(c) == Add(LowBits(c, 15), if Odd(Drop(c, 15)) then iset{15} else iset{})
  {
    LowBitsSplit(c, 15, 1);
    assert LowBits(Drop(c, 15), 1) == Append(LowBits(Half(Drop(c, 15)), 0), Odd(Drop(c, 15)));
    ShiftBit(Odd(Drop(c, 15)), 15);
  }

  lemma DropFifteen(c: bv16)
    ensures Odd(Drop(c, 15)) <==> c & 0x8000 != 0
  {
    DropByte(c);
    assert Drop(c, 15) == Drop(Drop(c, 8), 7) by { DropDrop(c, 8, 7); }
    assert Drop(c >> 8, 7) == Half(Half(Half(Half(Half(Half(Half(c >> 8)))))));
  }

  lemma {:induction false} DropDrop(c: bv16, m: nat, n: nat)
    ensures Drop(c, m + n) == Drop(Drop(c, m), n)
    decreases m
  {
    if m == 0 {
    } else {
      DropDrop(Half(c), m - 1, n);
    }
  }

  lemma LowBitsKept(c: bv16)
    ensures LowBits(Half(c << 1), 15) == LowBits(c, 15)
    ensures !Odd(c << 1)
  {
    ByteMask();
    SameBits(Half(c << 1), c & 0x7FFF, 15);
    LowBitsMask(c, 0x7FFF, 15);
  }

  lemma DoublePoly(c: bv16)
    ensures WordPoly(c << 1) == Shift(LowBits(c, 15), 1)
  {
    LowBitsKept(c);
    assert WordPoly(c << 1) == Append(LowBits(Half(c << 1), 15), Odd(c << 1));
    AppendZero(LowBits(c, 15));
  }

  lemma LowGeneratorByte()
    ensures LowBits(0x1021, 8) == iset{5, 0}
  {
  }

  lemma HighGeneratorByte()
    ensures LowBits(0x1021 >> 8, 8) == iset{4}
  {
    SameBits(0x1021 >> 8, 0x10, 8);
  }

  lemma GeneratorWord()
    ensures WordPoly(0x1021) == iset{12, 5, 0}
  {
    TwoBytes(0x1021);
    LowGeneratorByte();
    HighGeneratorByte();
    assert Add(iset{5, 0}, Shift(iset{4}, 8)) == iset{12, 5, 0};
  }

  lemma ReducedWord(c: bv16)
    ensures WordPoly((c << 1) ^ 0x1021) == Add(Shift(LowBits(c, 15), 1), iset{12, 5, 0})
  {
    LowBitsXor(c << 1, 0x1021, 16);
    DoublePoly(c);
    GeneratorWord();
  }

  lemma BitStepPoly(c: bv16)
    ensures Congruent(Shift(WordPoly(c), 1), WordPoly(BitStep(c)))
  {
    TopBit(c);
    DropFifteen(c);
    if Odd(Drop(c, 15)) {
      ReducedWord(c);
      SameBits(BitStep(c), (c << 1) ^ 0x1021, 16);
      ReduceTop(LowBits(c, 15), WordPoly(c));
    } else {
      DoublePoly(c);
      SameBits(BitStep(c), c << 1, 16);
      AddZero(LowBits(c, 15));
      CongruentRefl(Shift(WordPoly(c), 1));
    }
  }

  lemma {:induction false} StepsPoly(c: bv16, n: nat)
    ensures Congruent(Shift(WordPoly(c), n), WordPoly(Steps(c, n)))
    decreases n
  {
    if n == 0 {
      ShiftZero(WordPoly(c));
      CongruentRefl(WordPoly(c));
    } else {
      StepsPoly(c, n - 1);
      CongruentShift(Shift(WordPoly(c), n - 1), WordPoly(Steps(c, n - 1)), 1);
      ShiftShift(WordPoly(c), n - 1, 1);
      BitStepPoly(Steps(c, n - 1));
      CongruentTrans(Shift(WordPoly(c), n), Shift(WordPoly(Steps(c, n - 1)), 1), WordPoly(Steps(c, n)));
    }
  }

  /** Entry i of crc16tab is the remainder of i times x^16. */
  lemma TablePoly(i: bv16)
    requires i < 256
    ensures Congruent(Shift(WordPoly(i), 16), WordPoly(Table(i)))
  {
    TableEntry(i);
    StepsPoly(i << 8, 8);
    ByteShiftPoly(i);
    OneByte(i);
    ShiftShift(WordPoly(i), 8, 8);
  }

  lemma CombinePoly(crc: bv16, entry: bv16)
    ensures WordPoly(Combine(crc, entry)) == Add(Shift(LowBits(crc, 8), 8), WordPoly(entry))
  {
    ByteShiftPoly(crc);
    LowBitsXor(crc << 8, entry, 16);
    SameBits(Combine(crc, entry), (crc << 8) ^ entry, 16);
  }

  lemma CombineStep(crc: bv16, b: bv16, entry: bv16)
    requires b < 256 && Congruent(Shift(WordPoly(Index(crc, b)), 16), WordPoly(entry))
    ensures Congruent(Add(Shift(WordPoly(crc), 8), Shift(WordPoly(b), 16)), WordPoly(Combine(crc, entry)))
  {
    TwoBytes(crc);
    IndexPoly(crc, b);
    CombinePoly(crc, entry);
    ByteStep(WordPoly(crc), LowBits(crc, 8), LowBits(crc >> 8, 8), WordPoly(b),
             WordPoly(Index(crc, b)), WordPoly(entry), WordPoly(Combine(crc, entry)));
  }

  lemma IndexIsByte(crc: bv16, b: bv16)
    ensures Index(crc, b) < 256
  {
  }

  /** What one byte does to the remainder: multiply it by x^8 and add the byte times x^16. */
  lemma TableStepPoly(crc: bv16, b: bv8)
    ensures Congruent(Add(Shift(WordPoly(crc), 8), Shift(BytePoly(b), 16)), WordPoly(TableStep(crc, b)))
  {
    IndexIsByte(crc, b as bv16);
    TablePoly(Index(crc, b as bv16));
    CombineStep(crc, b as bv16, Table(Index(crc, b as bv16)));
  }

  // The CRC of a message.

  ghost function BytePoly(b: bv8): Poly {
    WordPoly(b as bv16)
  }

  /** The bytes of m, first byte first, as one polynomial. */
  ghost function MessagePoly(m: seq<bv8>): Poly {
    if m == [] then iset{} else Add(Shift(MessagePoly(m[..|m| - 1]), 8), BytePoly(m[|m| - 1]))
  }

  lemma LastByte(m: seq<bv8>, n: nat)
    requires |m| == n + 1
    ensures MessagePoly(m) == Add(Shift(MessagePoly(m[..n]), 8), BytePoly(m[n]))
  {
  }

  lemma {:induction false} CrcCongruent(m: seq<bv8>)
    ensures Congruent(Shift(MessagePoly(m), 16), WordPoly(Crc(m)))
  {
    if m == [] {
      ZeroBits(16);
      assert Shift(iset{}, 16) == iset{};
      CongruentRefl(iset{});
    } else {
      var p, b := m[..|m| - 1], m[|m| - 1];
      CrcCongruent(p);
      var mp, byte := MessagePoly(p), BytePoly(b);
      CongruentShift(Shift(mp, 16), WordPoly(Crc(p)), 8);
      ShiftSwap(mp, 16, 8);
      ShiftAdd(Shift(mp, 8), byte, 16);
      CongruentRefl(Shift(byte, 16));
      CongruentAdd(Shift(Shift(mp, 16), 8), Shift(WordPoly(Crc(p)), 8), Shift(byte, 16), Shift(byte, 16));
      TableStepPoly(Crc(p), b);
      CongruentTrans(Shift(MessagePoly(m), 16), Add(Shift(WordPoly(Crc(p)), 8), Shift(byte, 16)), WordPoly(Crc(m)));
    }
  }

  /** crc16 is the remainder of M(x) times x^16 on division by x^16 + x^12 + x^5 + 1: it is
      congruent to it, and it is the only word that is. */
  lemma CrcIsRemainder(m: seq<bv8>, r: bv16)
    ensures Congruent(Shift(MessagePoly(m), 16), WordPoly(r)) <==> r == Crc(m)
  {
    CrcCongruent(m);
    if Congruent(Shift(MessagePoly(m), 16), WordPoly(r)) {
      CongruentSym(Shift(MessagePoly(m), 16), WordPoly(r));
      CongruentTrans(WordPoly(r), Shift(MessagePoly(m), 16), WordPoly(Crc(m)));
      RemainderUnique(WordPoly(r), WordPoly(Crc(m)));
      DropAll(r);
      DropAll(Crc(m));
      LowBitsInjective(r, Crc(m), 16);
    }
  }

  lemma DropAll(c: bv16)
    ensures Drop(c, 16) == 0
  {
    DropDrop(c, 8, 8);
    DropByte(c);
    DropByte(c >> 8);
  }

  function Xor(a: seq<bv8>, b: seq<bv8>): (c: seq<bv8>)
    requires |a| == |b|
    ensures |c| == |a|
  {
    seq(|a|, i requires 0 <= i < |a| => a[i] ^ b[i])
  }

  lemma ByteXor(a: bv8, b: bv8, c: bv8)
    requires c == a ^ b
    ensures BytePoly(c) == Add(BytePoly(a), BytePoly(b))
  {
    XorWidens(a, b, c);
    LowBitsXor(a as bv16, b as bv16, 16);
  }

  lemma XorWidens(a: bv8, b: bv8, c: bv8)
    requires c == a ^ b
    ensures BytePoly(c) == WordPoly((a as bv16) ^ (b as bv16))
  {
    SameBits(c as bv16, (a as bv16) ^ (b as bv16), 16);
  }

  lemma {:induction false} MessagePolyXor(a: seq<bv8>, b: seq<bv8>)
    requires |a| == |b|
    ensures MessagePoly(Xor(a, b)) == Add(MessagePoly(a), MessagePoly(b))
  {
    if a == [] {
      AddZero(iset{});
    } else {
      var n := |a| - 1;
      MessagePolyXor(a[..n], b[..n]);
      assert Xor(a, b)[..n] == Xor(a[..n], b[..n]);
      LastByteXor(a, b, Xor(a, b), n);
    }
  }

  lemma LastByteXor(a: seq<bv8>, b: seq<bv8>, c: seq<bv8>, n: nat)
    requires |a| == |b| == |c| == n + 1 && c[n] == a[n] ^ b[n]
    requires MessagePoly(c[..n]) == Add(MessagePoly(a[..n]), MessagePoly(b[..n]))
    ensures MessagePoly(c) == Add(MessagePoly(a), MessagePoly(b))
  {
    LastByte(a, n);
    LastByte(b, n);
    LastByte(c, n);
    ByteXor(a[n], b[n], c[n]);
    ShiftAdd(MessagePoly(a[..n]), MessagePoly(b[..n]), 8);
    AddExchange(Shift(MessagePoly(a[..n]), 8), Shift(MessagePoly(b[..n]), 8), BytePoly(a[n]), BytePoly(b[n]));
  }

  lemma XorOfRemainders(a: seq<bv8>, b: seq<bv8>, ra: bv16, rb: bv16)
    requires |a| == |b|
    requires Congruent(Shift(MessagePoly(a), 16), WordPoly(ra)) && Congruent(Shift(MessagePoly(b), 16), WordPoly(rb))
    ensures Congruent(Shift(MessagePoly(Xor(a, b)), 16), WordPoly(ra ^ rb))
  {
    MessagePolyXor(a, b);
    ShiftAdd(MessagePoly(a), MessagePoly(b), 16);
    LowBitsXor(ra, rb, 16);
    CongruentAdd(Shift(MessagePoly(a), 16), WordPoly(ra), Shift(MessagePoly(b), 16), WordPoly(rb));
  }

  /** On messages of one length the CRC is linear. */
  lemma CrcXor(a: seq<bv8>, b: seq<bv8>)
    requires |a| == |b|
    ensures Crc(Xor(a, b)) == Crc(a) ^ Crc(b)
  {
    CrcCongruent(a);
    CrcCongruent(b);
    XorOfRemainders(a, b, Crc(a), Crc(b));
    CrcIsRemainder(Xor(a, b), Crc(a) ^ Crc(b));
  }

  lemma {:induction false} MessagePolyConcat(a: seq<bv8>, b: seq<bv8>)
    ensures MessagePoly(a + b) == Add(Shift(MessagePoly(a), 8 * |b|), MessagePoly(b))
  {
    if b == [] {
      assert a + b == a;
      ShiftZero(MessagePoly(a));
      AddZero(MessagePoly(a));
    } else {
      var n := |b| - 1;
      MessagePolyConcat(a, b[..n]);
      assert (a + b)[..|a| + n] == a + b[..n];
      LastByte(a + b, |a| + n);
      LastByte(b, n);
      HornerStep(MessagePoly(a), MessagePoly(b[..n]), BytePoly(b[n]), 8 * n);
    }
  }

  /** Leading zero bytes do not change the CRC. */
  lemma {:induction false} LeadingZeros(m: seq<bv8>)
    ensures Crc([0] + m) == Crc(m)
  {
    MessagePolyConcat([0], m);
    ZeroBits(16);
    assert MessagePoly([0]) == Add(Shift(MessagePoly([]), 8), WordPoly(0));
    assert Shift(MessagePoly([0]), 8 * |m|) == iset{};
    AddZero(MessagePoly(m));
    CrcCongruent([0] + m);
    CrcIsRemainder(m, Crc([0] + m));
  }

  function HighByte(c: bv16): bv8 {
    (c >> 8) as bv8
  }

  function LowByte(c: bv16): bv8 {
    (c & 0x00FF) as bv8
  }

  lemma BytesOfWord(c: bv16)
    ensures MessagePoly([HighByte(c), LowByte(c)]) == WordPoly(c)
  {
    TwoByteMessage(HighByte(c), LowByte(c));
    HighBits(c);
    LowByteBits(c);
    TwoBytes(c);
    AddComm(LowBits(c, 8), Shift(LowBits(c >> 8, 8), 8));
  }

  lemma TwoByteMessage(x: bv8, y: bv8)
    ensures MessagePoly([x, y]) == Add(Shift(BytePoly(x), 8), BytePoly(y))
  {
    LastByte([x, y], 1);
    assert [x, y][..1] == [x];
    LastByte([x], 0);
    assert [x][..0] == [];
    assert Shift(iset{}, 8) == iset{};
    AddZero(BytePoly(x));
  }

  lemma HighBits(c: bv16)
    ensures BytePoly(HighByte(c)) == LowBits(c >> 8, 8)
  {
    OneByte(HighByte(c) as bv16);
    SameBits(HighByte(c) as bv16, c >> 8, 8);
  }

  lemma LowByteBits(c: bv16)
    ensures BytePoly(LowByte(c)) == LowBits(c, 8)
  {
    OneByte(LowByte(c) as bv16);
    SameBits(LowByte(c) as bv16, c & 0x00FF, 8);
    ByteMask();
    LowBitsMask(c, 0x00FF, 8);
  }

  /** Two bytes appended to a message bring the CRC to 0 exactly when they are its own CRC,
      high byte first. */
  lemma SelfCheck(m: seq<bv8>, t: bv16)
    ensures Crc(m + [HighByte(t), LowByte(t)]) == 0 <==> t == Crc(m)
  {
    var tail := [HighByte(t), LowByte(t)];
    MessagePolyConcat(m, tail);
    BytesOfWord(t);
    assert MessagePoly(m + tail) == Add(Shift(MessagePoly(m), 16), WordPoly(t));
    CrcCongruent(m);
    CrcIsRemainder(m, t);
    CrcIsRemainder(m + tail, 0);
    ZeroBits(16);
    SelfCheckAlgebra(Shift(MessagePoly(m), 16), WordPoly(t));
  }

  lemma {:induction false} SameEndsCancel(p: seq<bv8>, x: seq<bv8>, y: seq<bv8>, s: seq<bv8>)
    requires |x| == |y|
    ensures Add(MessagePoly(p + x + s), MessagePoly(p + y + s))
         == Shift(Add(MessagePoly(x), MessagePoly(y)), 8 * |s|)
  {
    MessagePolyConcat(p + x, s);
    MessagePolyConcat(p + y, s);
    MessagePolyConcat(p, x);
    MessagePolyConcat(p, y);
    CommonPartsCancel(Shift(MessagePoly(p), 8 * |x|), MessagePoly(x), MessagePoly(y), MessagePoly(s), 8 * |s|);
  }

  /** Two keys that differ only within two neighbouring bytes never hash to the same slot. */
  lemma NeighbouringBytesSeparate(p: seq<bv8>, v: bv16, w: bv16, s: seq<bv8>)
    ensures Crc(p + [HighByte(v), LowByte(v)] + s) == Crc(p + [HighByte(w), LowByte(w)] + s) <==> v == w
  {
    var a, b := p + [HighByte(v), LowByte(v)] + s, p + [HighByte(w), LowByte(w)] + s;
    if Crc(a) == Crc(b) {
      SameEndsCancel(p, [HighByte(v), LowByte(v)], [HighByte(w), LowByte(w)], s);
      BytesOfWord(v);
      BytesOfWord(w);
      CrcCongruent(a);
      CrcCongruent(b);
      SameRemainder(MessagePoly(a), MessagePoly(b), WordPoly(Crc(a)), WordPoly(v), WordPoly(w), 8 * |s|);
      DropAll(v);
      DropAll(w);
      LowBitsInjective(v, w, 16);
    }
  }

  // hash_slot::get

  function Bytes(key: string): seq<bv8> {
    seq(|key|, i requires 0 <= i < |key| => (key[i] as int % 256) as bv8)
  }

  function Get(key: string): (slot: int)
    ensures 0 <= slot < 0x1_0000
  {
    Crc(Bytes(key)) as int
  }

  /** m is what the characters of key, in their order, take up in memory, one byte each. */
  predicate InMemory(key: string, m: seq<bv8>) {
    |m| == |key| && forall i :: 0 <= i < |key| ==> m[i] as int == key[i] as int % 256
  }

  lemma OnlyBytes(key: string, m: seq<bv8>)
    requires InMemory(key, m)
    ensures m == Bytes(key)
  {
    forall i | 0 <= i < |key| ensures m[i] == Bytes(key)[i] {
      SameByte(m[i], key[i] as int % 256);
    }
  }

  lemma SameByte(a: bv8, n: int)
    requires 0 <= n < 256 && a as int == n
    ensures a == n as bv8
  {
  }

  lemma SameWord(a: bv16, b: bv16)
    ensures a as int == b as int <==> a == b
  {
    var n := a as int;
    if n == b as int {
      assert n as bv16 == a;
      assert n as bv16 == b;
    }
  }

  /** The slot of a key is the remainder of its own bytes, first byte first. */
  lemma SlotIsRemainder(key: string, m: seq<bv8>, r: bv16)
    requires InMemory(key, m)
    ensures Get(key) == r as int <==> Congruent(Shift(MessagePoly(m), 16), WordPoly(r))
  {
    OnlyBytes(key, m);
    CrcIsRemainder(m, r);
    SameWord(Crc(m), r);
  }
}
