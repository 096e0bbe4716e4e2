/** CRC-32 of the boot image (qi-usb-lcd/src/crc32.c): the unrolled, table-driven loop computes the
    bit-serial shift register, and a corruption confined to any 32 consecutive bits is never missed. */
module Crc32 {
  import opened BitVectors

  /** Entry `n` of sixteen. */
  function Pick(n: Byte,
                v0: Word, v1: Word, v2: Word, v3: Word, v4: Word, v5: Word, v6: Word, v7: Word,
                v8: Word, v9: Word, v10: Word, v11: Word, v12: Word, v13: Word, v14: Word, v15: Word): Word {
    if n & 8 == 0 then
      if n & 4 == 0 then
        if n & 2 == 0 then (if n & 1 == 0 then v0 else v1) else (if n & 1 == 0 then v2 else v3)
      else
        if n & 2 == 0 then (if n & 1 == 0 then v4 else v5) else (if n & 1 == 0 then v6 else v7)
    else
      if n & 4 == 0 then
        if n & 2 == 0 then (if n & 1 == 0 then v8 else v9) else (if n & 1 == 0 then v10 else v11)
      else
        if n & 2 == 0 then (if n & 1 == 0 then v12 else v13) else (if n & 1 == 0 then v14 else v15)
  }

  // The constant table of the source, sixteen entries to a row.

  function Row0(l: Byte): Word {
    Pick(l, 0x00000000, 0x77073096, 0xee0e612c, 0x990951ba, 0x076dc419, 0x706af48f, 0xe963a535, 0x9e6495a3,
            0x0edb8832, 0x79dcb8a4, 0xe0d5e91e, 0x97d2d988, 0x09b64c2b, 0x7eb17cbd, 0xe7b82d07, 0x90bf1d91)
  }

  function Row1(l: Byte): Word {
    Pick(l, 0x1db71064, 0x6ab020f2, 0xf3b97148, 0x84be41de, 0x1adad47d, 0x6ddde4eb, 0xf4d4b551, 0x83d385c7,
            0x136c9856, 0x646ba8c0, 0xfd62f97a, 0x8a65c9ec, 0x14015c4f, 0x63066cd9, 0xfa0f3d63, 0x8d080df5)
  }

  function Row2(l: Byte): Word {
    Pick(l, 0x3b6e20c8, 0x4c69105e, 0xd56041e4, 0xa2677172, 0x3c03e4d1, 0x4b04d447, 0xd20d85fd, 0xa50ab56b,
            0x35b5a8fa, 0x42b2986c, 0xdbbbc9d6, 0xacbcf940, 0x32d86ce3, 0x45df5c75, 0xdcd60dcf, 0xabd13d59)
  }

  function Row3(l: Byte): Word {
    Pick(l, 0x26d930ac, 0x51de003a, 0xc8d75180, 0xbfd06116, 0x21b4f4b5, 0x56b3c423, 0xcfba9599, 0xb8bda50f,
            0x2802b89e, 0x5f058808, 0xc60cd9b2, 0xb10be924, 0x2f6f7c87, 0x58684c11, 0xc1611dab, 0xb6662d3d)
  }

  function Row4(l: Byte): Word {
    Pick(l, 0x76dc4190, 0x01db7106, 0x98d220bc, 0xefd5102a, 0x71b18589, 0x06b6b51f, 0x9fbfe4a5, 0xe8b8d433,
            0x7807c9a2, 0x0f00f934, 0x9609a88e, 0xe10e9818, 0x7f6a0dbb, 0x086d3d2d, 0x91646c97, 0xe6635c01)
  }

  function Row5(l: Byte): Word {
    Pick(l, 0x6b6b51f4, 0x1c6c6162, 0x856530d8, 0xf262004e, 0x6c0695ed, 0x1b01a57b, 0x8208f4c1, 0xf50fc457,
            0x65b0d9c6, 0x12b7e950, 0x8bbeb8ea, 0xfcb9887c, 0x62dd1ddf, 0x15da2d49, 0x8cd37cf3, 0xfbd44c65)
  }

  function Row6(l: Byte): Word {
    Pick(l, 0x4db26158, 0x3ab551ce, 0xa3bc0074, 0xd4bb30e2, 0x4adfa541, 0x3dd895d7, 0xa4d1c46d, 0xd3d6f4fb,
            0x4369e96a, 0x346ed9fc, 0xad678846, 0xda60b8d0, 0x44042d73, 0x33031de5, 0xaa0a4c5f, 0xdd0d7cc9)
  }

  function Row7(l: Byte): Word {
    Pick(l, 0x5005713c, 0x270241aa, 0xbe0b1010, 0xc90c2086, 0x5768b525, 0x206f85b3, 0xb966d409, 0xce61e49f,
            0x5edef90e, 0x29d9c998, 0xb0d09822, 0xc7d7a8b4, 0x59b33d17, 0x2eb40d81, 0xb7bd5c3b, 0xc0ba6cad)
  }

  function Row8(l: Byte): Word {
    Pick(l, 0xedb88320, 0x9abfb3b6, 0x03b6e20c, 0x74b1d29a, 0xead54739, 0x9dd277af, 0x04db2615, 0x73dc1683,
            0xe3630b12, 0x94643b84, 0x0d6d6a3e, 0x7a6a5aa8, 0xe40ecf0b, 0x9309ff9d, 0x0a00ae27, 0x7d079eb1)
  }

  function Row9(l: Byte): Word {
    Pick(l, 0xf00f9344, 0x8708a3d2, 0x1e01f268, 0x6906c2fe, 0xf762575d, 0x806567cb, 0x196c3671, 0x6e6b06e7,
            0xfed41b76, 0x89d32be0, 0x10da7a5a, 0x67dd4acc, 0xf9b9df6f, 0x8ebeeff9, 0x17b7be43, 0x60b08ed5)
  }

  function Row10(l: Byte): Word {
    Pick(l, 0xd6d6a3e8, 0xa1d1937e, 0x38d8c2c4, 0x4fdff252, 0xd1bb67f1, 0xa6bc5767, 0x3fb506dd, 0x48b2364b,
            0xd80d2bda, 0xaf0a1b4c, 0x36034af6, 0x41047a60, 0xdf60efc3, 0xa867df55, 0x316e8eef, 0x4669be79)
  }

  function Row11(l: Byte): Word {
    Pick(l, 0xcb61b38c, 0xbc66831a, 0x256fd2a0, 0x5268e236, 0xcc0c7795, 0xbb0b4703, 0x220216b9, 0x5505262f,
            0xc5ba3bbe, 0xb2bd0b28, 0x2bb45a92, 0x5cb36a04, 0xc2d7ffa7, 0xb5d0cf31, 0x2cd99e8b, 0x5bdeae1d)
  }

  function Row12(l: Byte): Word {
    Pick(l, 0x9b64c2b0, 0xec63f226, 0x756aa39c, 0x026d930a, 0x9c0906a9, 0xeb0e363f, 0x72076785, 0x05005713,
            0x95bf4a82, 0xe2b87a14, 0x7bb12bae, 0x0cb61b38, 0x92d28e9b, 0xe5d5be0d, 0x7cdcefb7, 0x0bdbdf21)
  }

  function Row13(l: Byte): Word {
    Pick(l, 0x86d3d2d4, 0xf1d4e242, 0x68ddb3f8, 0x1fda836e, 0x81be16cd, 0xf6b9265b, 0x6fb077e1, 0x18b74777,
            0x88085ae6, 0xff0f6a70, 0x66063bca, 0x11010b5c, 0x8f659eff, 0xf862ae69, 0x616bffd3, 0x166ccf45)
  }

  function Row14(l: Byte): Word {
    Pick(l, 0xa00ae278, 0xd70dd2ee, 0x4e048354, 0x3903b3c2, 0xa7672661, 0xd06016f7, 0x4969474d, 0x3e6e77db,
            0xaed16a4a, 0xd9d65adc, 0x40df0b66, 0x37d83bf0, 0xa9bcae53, 0xdebb9ec5, 0x47b2cf7f, 0x30b5ffe9)
  }

  function Row15(l: Byte): Word {
    Pick(l, 0xbdbdf21c, 0xcabac28a, 0x53b39330, 0x24b4a3a6, 0xbad03605, 0xcdd70693, 0x54de5729, 0x23d967bf,
            0xb3667a2e, 0xc4614ab8, 0x5d681b02, 0x2a6f2b94, 0xb40bbe37, 0xc30c8ea1, 0x5a05df1b, 0x2d02ef8d)
  }

  /** `crc_table`: entry `i` sits in row `i >> 4`, column `i & 15`. */
  function Table(i: Byte): Word {
    var l := i & 15;
    Pick(i >> 4, Row0(l), Row1(l), Row2(l), Row3(l), Row4(l), Row5(l), Row6(l), Row7(l),
                 Row8(l), Row9(l), Row10(l), Row11(l), Row12(l), Row13(l), Row14(l), Row15(l))
  }

  // ---------------------------------------------------------------- reference: the shift register

  /** Named, so that proofs can hide it and reason by congruence alone. */
  function Xor(a: Word, b: Word): Word { a ^ b }

  /** One shift of the register; the generator polynomial is 0xedb88320, bit-reversed. */
  function Shift(s: Word): Word {
    if s & 1 == 1 then (s >> 1) ^ 0xedb8_8320 else s >> 1
  }

  function Shift2(s: Word): Word { Shift(Shift(s)) }

  function Shift4(s: Word): Word { Shift2(Shift2(s)) }

  function Shift8(s: Word): Word { Shift4(Shift4(s)) }

  function Bit(b: bool): Word { if b then 1 else 0 }

  /** Feed a bit string into the register, one bit per shift. */
  function Feed(s: Word, bits: seq<bool>): Word
    decreases |bits|
  {
    if bits == [] then s else Feed(Shift(Xor(s, Bit(bits[0]))), bits[1..])
  }

  /** The low four bits of `n`, least significant first. */
  function Nibble(n: Word): seq<bool> {
    [n & 1 != 0, n & 2 != 0, n & 4 != 0, n & 8 != 0]
  }

  function Lo(b: Byte): Word { (b & 0x0f) as Word }

  function Hi(b: Byte): Word { (b >> 4) as Word }

  function ByteBits(b: Byte): seq<bool> { Nibble(Lo(b)) + Nibble(Hi(b)) }

  /** A message as its bits enter the register: bytes in order, least significant bit first. */
  function BitsOf(msg: seq<Byte>): (r: seq<bool>)
    ensures |r| == 8 * |msg|
  {
    if msg == [] then [] else ByteBits(msg[0]) + BitsOf(msg[1..])
  }

  /** The inversion before and after the run. */
  function Flip(crc: Word): Word { crc ^ 0xffff_ffff }

  /** The checksum, by definition. */
  function Crc(crc: Word, msg: seq<Byte>): Word {
    Flip(Feed(Flip(crc), BitsOf(msg)))
  }

  // ---------------------------------------------------------------- the register is linear

  lemma XorAssoc(a: Word, b: Word, c: Word)
    ensures Xor(Xor(a, b), c) == Xor(a, Xor(b, c))
  {
  }

  lemma XorComm(a: Word, b: Word)
    ensures Xor(a, b) == Xor(b, a)
  {
  }

  lemma XorIs(a: Word, b: Word)
    ensures Xor(a, b) == a ^ b
  {
  }

  lemma BothOdd(a: Word, b: Word)
    requires a & 1 == 1 && b & 1 == 1
    ensures (a ^ b) & 1 != 1
    ensures (a ^ b) >> 1 == ((a >> 1) ^ 0xedb8_8320) ^ ((b >> 1) ^ 0xedb8_8320)
  {
  }

  lemma FirstOdd(a: Word, b: Word)
    requires a & 1 == 1 && b & 1 != 1
    ensures (a ^ b) & 1 == 1
    ensures ((a ^ b) >> 1) ^ 0xedb8_8320 == ((a >> 1) ^ 0xedb8_8320) ^ (b >> 1)
  {
  }

  lemma BothEven(a: Word, b: Word)
    requires a & 1 != 1 && b & 1 != 1
    ensures (a ^ b) & 1 != 1
    ensures (a ^ b) >> 1 == (a >> 1) ^ (b >> 1)
  {
  }

  lemma ShiftBothOdd(a: Word, b: Word)
    requires a & 1 == 1 && b & 1 == 1
    ensures Shift(a ^ b) == Shift(a) ^ Shift(b)
  {
    BothOdd(a, b);
  }

  lemma ShiftFirstOdd(a: Word, b: Word)
    requires a & 1 == 1 && b & 1 != 1
    ensures Shift(a ^ b) == Shift(a) ^ Shift(b)
  {
    FirstOdd(a, b);
  }

  lemma ShiftBothEven(a: Word, b: Word)
    requires a & 1 != 1 && b & 1 != 1
    ensures Shift(a ^ b) == Shift(a) ^ Shift(b)
  {
    BothEven(a, b);
  }

  lemma ShiftLinear(a: Word, b: Word)
    ensures Shift(Xor(a, b)) == Xor(Shift(a), Shift(b))
  {
    hide Shift, Xor;
    XorIs(a, b);
    XorIs(Shift(a), Shift(b));
    XorComm(a, b);
    XorComm(Shift(a), Shift(b));
    if a & 1 == 1 {
      if b & 1 == 1 { ShiftBothOdd(a, b); } else { ShiftFirstOdd(a, b); }
    } else {
      if b & 1 == 1 { XorIs(b, a); XorIs(Shift(b), Shift(a)); ShiftFirstOdd(b, a); } else { ShiftBothEven(a, b); }
    }
  }

  lemma Shift4Linear(a: Word, b: Word)
    ensures Shift4(Xor(a, b)) == Xor(Shift4(a), Shift4(b))
  {
    hide Shift, Xor;
    ShiftLinear(a, b);
    ShiftLinear(Shift(a), Shift(b));
    ShiftLinear(Shift2(a), Shift2(b));
    ShiftLinear(Shift(Shift2(a)), Shift(Shift2(b)));
  }

  lemma Shift8Linear(a: Word, b: Word)
    ensures Shift8(Xor(a, b)) == Xor(Shift8(a), Shift8(b))
  {
    hide Shift4, Xor;
    Shift4Linear(a, b);
    Shift4Linear(Shift4(a), Shift4(b));
  }

  // ---------------------------------------------------------------- the table holds eight shifts

  function If(b: bool, x: Word): Word { if b then x else 0 }

  /** The table's eight one-bit columns, combined. */
  function Basis(i: Byte): Word {
    Xor(If(i & 0x01 != 0, 0x77073096), Xor(If(i & 0x02 != 0, 0xee0e612c),
    Xor(If(i & 0x04 != 0, 0x076dc419), Xor(If(i & 0x08 != 0, 0x0edb8832),
    Xor(If(i & 0x10 != 0, 0x1db71064), Xor(If(i & 0x20 != 0, 0x3b6e20c8),
    Xor(If(i & 0x40 != 0, 0x76dc4190), If(i & 0x80 != 0, 0xedb88320))))))))
  }

  function LowColumns(l: Byte): Word {
    Xor(If(l & 1 != 0, 0x77073096), Xor(If(l & 2 != 0, 0xee0e612c),
    Xor(If(l & 4 != 0, 0x076dc419), If(l & 8 != 0, 0x0edb8832))))
  }

  function HighColumns(h: Byte): Word {
    Xor(If(h & 1 != 0, 0x1db71064), Xor(If(h & 2 != 0, 0x3b6e20c8),
    Xor(If(h & 4 != 0, 0x76dc4190), If(h & 8 != 0, 0xedb88320))))
  }

  lemma Rows0(l: Byte)
    ensures Row0(l) == Xor(LowColumns(l), 0x00000000)
    ensures Row1(l) == Xor(LowColumns(l), 0x1db71064)
    ensures Row2(l) == Xor(LowColumns(l), 0x3b6e20c8)
    ensures Row3(l) == Xor(LowColumns(l), 0x26d930ac)
  {
  }

  lemma Rows4(l: Byte)
    ensures Row4(l) == Xor(LowColumns(l), 0x76dc4190)
    ensures Row5(l) == Xor(LowColumns(l), 0x6b6b51f4)
    ensures Row6(l) == Xor(LowColumns(l), 0x4db26158)
    ensures Row7(l) == Xor(LowColumns(l), 0x5005713c)
  {
  }

  lemma Rows8(l: Byte)
    ensures Row8(l) == Xor(LowColumns(l), 0xedb88320)
    ensures Row9(l) == Xor(LowColumns(l), 0xf00f9344)
    ensures Row10(l) == Xor(LowColumns(l), 0xd6d6a3e8)
    ensures Row11(l) == Xor(LowColumns(l), 0xcb61b38c)
  {
  }

  lemma Rows12(l: Byte)
    ensures Row12(l) == Xor(LowColumns(l), 0x9b64c2b0)
    ensures Row13(l) == Xor(LowColumns(l), 0x86d3d2d4)
    ensures Row14(l) == Xor(LowColumns(l), 0xa00ae278)
    ensures Row15(l) == Xor(LowColumns(l), 0xbdbdf21c)
  {
  }

  lemma PickedColumns(h: Byte)
    ensures HighColumns(h & 15) ==
            Pick(h, 0x00000000, 0x1db71064, 0x3b6e20c8, 0x26d930ac, 0x76dc4190, 0x6b6b51f4, 0x4db26158, 0x5005713c,
                    0xedb88320, 0xf00f9344, 0xd6d6a3e8, 0xcb61b38c, 0x9b64c2b0, 0x86d3d2d4, 0xa00ae278, 0xbdbdf21c)
  {
  }

  lemma TableColumns(i: Byte)
    ensures Table(i) == Xor(LowColumns(i & 15), HighColumns(i >> 4))
  {
    hide LowColumns, HighColumns, Xor, Row0, Row1, Row2, Row3, Row4, Row5, Row6, Row7, Row8, Row9, Row10, Row11,
         Row12, Row13, Row14, Row15;
    Rows0(i & 15);
    Rows4(i & 15);
    Rows8(i & 15);
    Rows12(i & 15);
    PickedColumns(i >> 4);
    NibbleOnly(i);
  }

  lemma NibbleOnly(i: Byte)
    ensures (i >> 4) & 15 == i >> 4
  {
  }

  lemma NibbleTests(i: Byte)
    ensures (i & 15) & 1 == i & 1 && (i & 15) & 2 == i & 2 && (i & 15) & 4 == i & 4 && (i & 15) & 8 == i & 8
    ensures ((i >> 4) & 1 != 0 <==> i & 0x10 != 0) && ((i >> 4) & 2 != 0 <==> i & 0x20 != 0)
    ensures ((i >> 4) & 4 != 0 <==> i & 0x40 != 0) && ((i >> 4) & 8 != 0 <==> i & 0x80 != 0)
  {
  }

  lemma ColumnsAreBasis(i: Byte)
    ensures Xor(LowColumns(i & 15), HighColumns(i >> 4)) == Basis(i)
  {
    hide Xor, If;
    NibbleTests(i);
    var high := HighColumns(i >> 4);
    var a, b := If(i & 0x01 != 0, 0x77073096), If(i & 0x02 != 0, 0xee0e612c);
    var c, d := If(i & 0x04 != 0, 0x076dc419), If(i & 0x08 != 0, 0x0edb8832);
    XorAssoc(a, Xor(b, Xor(c, d)), high);
    XorAssoc(b, Xor(c, d), high);
    XorAssoc(c, d, high);
  }

  lemma TableIsBasis(i: Byte)
    ensures Table(i) == Basis(i)
  {
    hide Table, LowColumns, HighColumns, Basis, Xor;
    TableColumns(i);
    ColumnsAreBasis(i);
  }

  lemma ShiftOneBit()
    ensures Shift8(0x00) == 0
    ensures Shift8(0x01) == 0x77073096 && Shift8(0x02) == 0xee0e612c
    ensures Shift8(0x04) == 0x076dc419 && Shift8(0x08) == 0x0edb8832
    ensures Shift8(0x10) == 0x1db71064 && Shift8(0x20) == 0x3b6e20c8
    ensures Shift8(0x40) == 0x76dc4190 && Shift8(0x80) == 0xedb88320
  {
  }

  function Keep(i: Byte, mask: Byte): Word { (i & mask) as Word }

  /** Split off one bit of a table index. */
  lemma SplitBit(i: Byte, bit: Byte, rest: Byte, column: Word)
    requires bit & rest == 0 && Shift8(0) == 0 && Shift8(bit as Word) == column
    requires bit == 0x01 || bit == 0x02 || bit == 0x04 || bit == 0x08 ||
             bit == 0x10 || bit == 0x20 || bit == 0x40 || bit == 0x80
    ensures Shift8(Keep(i, bit | rest)) == Xor(If(i & bit != 0, column), Shift8(Keep(i, rest)))
  {
    hide Shift8;
    assert Keep(i, bit | rest) == Xor(Keep(i, bit), Keep(i, rest));
    assert Keep(i, bit) == If(i & bit != 0, bit as Word);
    Shift8Linear(Keep(i, bit), Keep(i, rest));
  }

  /** Every entry of the table is its index, shifted eight times. */
  lemma TableIsShift8(i: Byte)
    ensures Table(i) == Shift8(i as Word)
  {
    hide Shift8, Table, Xor;
    TableIsBasis(i);
    ShiftOneBit();
    SplitBit(i, 0x01, 0xfe, 0x77073096);
    SplitBit(i, 0x02, 0xfc, 0xee0e612c);
    SplitBit(i, 0x04, 0xf8, 0x076dc419);
    SplitBit(i, 0x08, 0xf0, 0x0edb8832);
    SplitBit(i, 0x10, 0xe0, 0x1db71064);
    SplitBit(i, 0x20, 0xc0, 0x3b6e20c8);
    SplitBit(i, 0x40, 0x80, 0x76dc4190);
    assert Keep(i, 0xff) == i as Word;
    assert Keep(i, 0x80) == If(i & 0x80 != 0, 0x80);
  }

  /** The table index of DO1. */
  function Index(crc: Word, b: Byte): Byte {
    (Xor(crc, b as Word) & 0xff) as Byte
  }

  /** One DO1 of the source. */
  function Step(crc: Word, b: Byte): Word {
    Xor(Table(Index(crc, b)), crc >> 8)
  }

  function High(x: Word): Word { x & 0xffff_ff00 }

  lemma EvenShift4(x: Word)
    requires x & 0xf == 0
    ensures Shift4(x) == x >> 4
  {
    assert Shift(x) == x >> 1;
    assert Shift2(x) == x >> 2;
    assert Shift(x >> 2) == x >> 3;
  }

  lemma EvenShift8(x: Word)
    ensures Shift8(High(x)) == x >> 8
  {
    hide Shift4;
    EvenShift4(High(x));
    EvenShift4(High(x) >> 4);
  }

  lemma SplitWord(x: Word)
    ensures Xor(((x & 0xff) as Byte) as Word, High(x)) == x
  {
  }

  lemma DropsByte(crc: Word, b: Byte)
    ensures (crc ^ b as Word) >> 8 == crc >> 8
  {
  }

  lemma StepIsShift8(crc: Word, b: Byte)
    ensures Step(crc, b) == Shift8(Xor(crc, b as Word))
  {
    hide Shift8, Table, Xor, High;
    var x := Xor(crc, b as Word);
    XorIs(crc, b as Word);
    DropsByte(crc, b);
    SplitWord(x);
    TableIsShift8(Index(crc, b));
    Shift8Linear(Index(crc, b) as Word, High(x));
    EvenShift8(x);
  }

  // ---------------------------------------------------------------- bytes as bits

  function Half(n: Word): Word { n >> 1 }

  function Odd(n: Word): Word { n & 1 }

  function Even(n: Word): Word { n & 0xffff_fffe }

  lemma OddEven(n: Word)
    ensures Xor(Odd(n), Even(n)) == n && Shift(Even(n)) == Half(n)
  {
  }

  /** Xoring a word in at once is xoring its low bit in now and the rest after the shift. */
  lemma ShiftCarries(t: Word, n: Word)
    ensures Xor(Shift(Xor(t, Odd(n))), Half(n)) == Shift(Xor(t, n))
  {
    hide Shift, Xor, Odd, Even, Half;
    OddEven(n);
    XorAssoc(t, Odd(n), Even(n));
    ShiftLinear(Xor(t, Odd(n)), Even(n));
  }

  lemma FeedBit(s: Word, b: bool, rest: seq<bool>)
    ensures Feed(s, [b] + rest) == Feed(Shift(Xor(s, Bit(b))), rest)
  {
    hide Shift, Xor;
    assert ([b] + rest)[1..] == rest;
  }

  lemma NibbleBits(n: Word)
    requires n < 16
    ensures Nibble(n) == [Odd(n) != 0, Odd(Half(n)) != 0, Odd(Half(Half(n))) != 0, Odd(Half(Half(Half(n)))) != 0]
    ensures Bit(Odd(n) != 0) == Odd(n) && Bit(Odd(Half(n)) != 0) == Odd(Half(n))
    ensures Bit(Odd(Half(Half(n))) != 0) == Odd(Half(Half(n)))
    ensures Bit(Odd(Half(Half(Half(n)))) != 0) == Half(Half(Half(n)))
  {
  }

  lemma Peel4(b: seq<bool>, rest: seq<bool>)
    requires |b| == 4
    ensures b + rest == [b[0]] + ([b[1]] + ([b[2]] + ([b[3]] + rest)))
  {
  }

  lemma FeedNibble(s: Word, n: Word, rest: seq<bool>)
    requires n < 16
    ensures Feed(s, Nibble(n) + rest) == Feed(Shift4(Xor(s, n)), rest)
  {
    hide Shift, Xor, Half, Odd, Nibble, Bit;
    NibbleBits(n);
    var n1 := Half(n);
    var n2 := Half(n1);
    var n3 := Half(n2);
    var b := Nibble(n);
    Peel4(b, rest);
    var s1 := Shift(Xor(s, Odd(n)));
    var s2 := Shift(Xor(s1, Odd(n1)));
    var s3 := Shift(Xor(s2, Odd(n2)));
    FeedBit(s, b[0], [b[1]] + ([b[2]] + ([b[3]] + rest)));
    FeedBit(s1, b[1], [b[2]] + ([b[3]] + rest));
    FeedBit(s2, b[2], [b[3]] + rest);
    FeedBit(s3, b[3], rest);
    ShiftCarries(s, n);
    ShiftCarries(s1, n1);
    ShiftCarries(s2, n2);
  }

  /** Feeding a byte is one DO1 of the source. */
  lemma FeedByte(s: Word, b: Byte, rest: seq<bool>)
    ensures Feed(s, ByteBits(b) + rest) == Feed(Step(s, b), rest)
  {
    hide Shift4, Xor, Nibble, Feed, Step, Lo, Hi;
    var lo, hi := Lo(b), Hi(b);
    HalvesOfByte(s, b);
    assert ByteBits(b) + rest == Nibble(lo) + (Nibble(hi) + rest);
    FeedNibble(s, lo, Nibble(hi) + rest);
    FeedNibble(Shift4(Xor(s, lo)), hi, rest);
    Shift4Linear(Xor(s, lo), Up(b));
    StepIsShift8(s, b);
  }

  function Up(b: Byte): Word { Hi(b) << 4 }

  lemma HalvesOfByte(s: Word, b: Byte)
    ensures Lo(b) < 16 && Hi(b) < 16
    ensures Shift4(Up(b)) == Hi(b)
    ensures Xor(Xor(s, Lo(b)), Up(b)) == Xor(s, b as Word)
  {
    hide Shift4;
    EvenShift4(Up(b));
  }

  // ---------------------------------------------------------------- the loop of the source

  /** The register after a run of DO1 steps. */
  function Steps(crc: Word, msg: seq<Byte>): Word
    decreases |msg|
  {
    if msg == [] then crc else Steps(Step(crc, msg[0]), msg[1..])
  }

  lemma {:induction false} StepsIsFeed(crc: Word, msg: seq<Byte>)
    ensures Steps(crc, msg) == Feed(crc, BitsOf(msg))
    decreases |msg|
  {
    hide Step, ByteBits;
    if msg != [] {
      FeedByte(crc, msg[0], BitsOf(msg[1..]));
      StepsIsFeed(Step(crc, msg[0]), msg[1..]);
    }
  }

  lemma StepsOne(crc: Word, msg: seq<Byte>)
    requires |msg| > 0
    ensures Steps(crc, msg) == Steps(Step(crc, msg[0]), msg[1..])
  {
  }

  /** The source's macros DO1, DO2, DO4 and DO8, each advancing the cursor `p` over `buf`. */
  method Do1(crc: Word, buf: seq<Byte>, p: nat) returns (r: Word)
    requires p + 1 <= |buf|
    ensures Steps(crc, buf[p..]) == Steps(r, buf[p + 1..])
  {
    hide Step;
    StepsOne(crc, buf[p..]);
    assert buf[p..][1..] == buf[p + 1..];
    r := Step(crc, buf[p]);
  }

  method Do2(crc: Word, buf: seq<Byte>, p: nat) returns (r: Word)
    requires p + 2 <= |buf|
    ensures Steps(crc, buf[p..]) == Steps(r, buf[p + 2..])
  {
    r := Do1(crc, buf, p);
    r := Do1(r, buf, p + 1);
  }

  method Do4(crc: Word, buf: seq<Byte>, p: nat) returns (r: Word)
    requires p + 4 <= |buf|
    ensures Steps(crc, buf[p..]) == Steps(r, buf[p + 4..])
  {
    r := Do2(crc, buf, p);
    r := Do2(r, buf, p + 2);
  }

  method Do8(crc: Word, buf: seq<Byte>, p: nat) returns (r: Word)
    requires p + 8 <= |buf|
    ensures Steps(crc, buf[p..]) == Steps(r, buf[p + 8..])
  {
    r := Do4(crc, buf, p);
    r := Do4(r, buf, p + 4);
  }

  /** The unrolled loop computes the checksum as defined on the bits of the message. */
  method Compute(crc: Word, buf: seq<Byte>) returns (r: Word)
    ensures r == Crc(crc, buf)
  {
    hide Step, Flip;
    ghost var s0 := Flip(crc);
    var c := Flip(crc);
    var p, len := 0, |buf|;
    while len >= 8
      invariant 0 <= p && 0 <= len && p + len == |buf|
      invariant Steps(s0, buf) == Steps(c, buf[p..])
    {
      c := Do8(c, buf, p);
      p, len := p + 8, len - 8;
    }
    if len != 0 {
      while true
        invariant 0 <= p && 0 < len && p + len == |buf|
        invariant Steps(s0, buf) == Steps(c, buf[p..])
        decreases len
      {
        c := Do1(c, buf, p);
        p, len := p + 1, len - 1;
        if len == 0 { break; }
      }
    }
    StepsIsFeed(s0, buf);
    r := Flip(c);
  }

  // ---------------------------------------------------------------- error detection

  function XorBits(x: seq<bool>, y: seq<bool>): (e: seq<bool>)
    requires |x| == |y|
    ensures |e| == |x| && forall i :: 0 <= i < |x| ==> (e[i] <==> x[i] != y[i])
  {
    seq(|x|, i requires 0 <= i < |x| => x[i] != y[i])
  }

  lemma XorSwap(s: Word, t: Word, a: bool, b: bool)
    ensures Xor(Xor(s, Bit(a)), Xor(t, Bit(b))) == Xor(Xor(s, t), Bit(a != b))
  {
    hide Bit, Xor;
    XorFour(s, t, Bit(a), Bit(b));
    XorBit(a, b);
  }

  lemma XorBit(a: bool, b: bool)
    ensures Xor(Bit(a), Bit(b)) == Bit(a != b)
  {
  }

  lemma XorFour(s: Word, t: Word, a: Word, b: Word)
    ensures Xor(Xor(s, a), Xor(t, b)) == Xor(Xor(s, t), Xor(a, b))
  {
    hide Xor;
    XorAssoc(Xor(s, a), t, b);
    XorAssoc(s, a, t);
    XorComm(a, t);
    XorAssoc(s, t, a);
    XorAssoc(Xor(s, t), a, b);
  }

  /** The register is linear: two runs differ by exactly what their difference alone would leave. */
  lemma {:induction false} FeedLinear(s: Word, t: Word, x: seq<bool>, y: seq<bool>)
    requires |x| == |y|
    ensures Xor(Feed(s, x), Feed(t, y)) == Feed(Xor(s, t), XorBits(x, y))
    decreases |x|
  {
    hide Shift, Xor, Bit;
    if x != [] {
      var s', t' := Xor(s, Bit(x[0])), Xor(t, Bit(y[0]));
      FeedLinear(Shift(s'), Shift(t'), x[1..], y[1..]);
      ShiftLinear(s', t');
      XorSwap(s, t, x[0], y[0]);
      assert XorBits(x, y)[1..] == XorBits(x[1..], y[1..]);
    }
  }

  lemma {:induction false} FeedAppend(s: Word, x: seq<bool>, y: seq<bool>)
    ensures Feed(s, x + y) == Feed(Feed(s, x), y)
    decreases |x|
  {
    hide Shift, Xor, Bit;
    if x == [] {
      assert x + y == y;
    } else {
      assert (x + y)[1..] == x[1..] + y;
      FeedAppend(Shift(Xor(s, Bit(x[0]))), x[1..], y);
    }
  }

  ghost predicate NoOnes(e: seq<bool>) { forall i :: 0 <= i < |e| ==> !e[i] }

  lemma ShiftZero(s: Word)
    ensures Xor(s, Bit(false)) == s
    ensures Shift(s) == 0 <==> s == 0
  {
  }

  /** Error-free bits neither create nor lose a difference. */
  lemma {:induction false} FeedNoOnes(s: Word, e: seq<bool>)
    requires NoOnes(e)
    ensures Feed(s, e) == 0 <==> s == 0
    decreases |e|
  {
    hide Shift, Xor, Bit;
    if e != [] {
      ShiftZero(s);
      FeedNoOnes(Shift(s), e[1..]);
    }
  }

  /** A word of `k` ones. */
  function Ones(k: nat): Word {
    if k == 0 then 0 else (Ones(k - 1) << 1) | 1
  }

  lemma OnesFit(k: nat)
    requires k < 32
    ensures Ones(k) & 0x8000_0000 == 0
  {
    assert Ones(31) == 0x7fff_ffff by {
      assert Ones(4) == 0xf;
      assert Ones(8) == 0xff;
      assert Ones(12) == 0xfff;
      assert Ones(16) == 0xffff;
      assert Ones(20) == 0xf_ffff;
      assert Ones(24) == 0xff_ffff;
      assert Ones(28) == 0xfff_ffff;
    }
    OnesWithin(k, 31);
  }

  lemma OnesWithin(k: nat, n: nat)
    requires k <= n
    ensures Ones(k) & !Ones(n) == 0
  {
    if k > 0 {
      OnesWithin(k - 1, n - 1);
    }
  }

  predicate Under(s: Word, m: Word) { s & !m == 0 }

  function Grown(m: Word): Word { (m << 1) | 1 }

  /** The register holds nothing above its `k` low bits. */
  predicate Fits(s: Word, k: nat) { Under(s, Ones(k)) }

  lemma ShiftedIsEven(x: Word, m: Word)
    requires Under(Shift(x), m) && m & 0x8000_0000 == 0
    ensures x & 1 == 0
  {
  }

  lemma ShiftedBack(x: Word, m: Word)
    requires Under(Shift(x), m) && x & 1 == 0
    ensures Under(x, Grown(m))
  {
  }

  lemma LowBit(s: Word, b: bool, m: Word)
    requires Under(Xor(s, Bit(b)), Grown(m))
    ensures Under(s, Grown(m))
  {
  }

  lemma FromZero(s: Word, b: bool)
    requires s == 0 && Xor(s, Bit(b)) & 1 == 0
    ensures !b && Shift(Xor(s, Bit(b))) == 0
  {
  }

  lemma ShiftBack(s: Word, b: bool, m: Word)
    requires Under(Shift(Xor(s, Bit(b))), m) && m & 0x8000_0000 == 0
    ensures Under(s, Grown(m))
    ensures s == 0 ==> !b && Shift(Xor(s, Bit(b))) == 0
  {
    hide Shift, Xor, Bit, Under, Grown;
    ShiftedIsEven(Xor(s, Bit(b)), m);
    ShiftedBack(Xor(s, Bit(b)), m);
    LowBit(s, b, m);
    if s == 0 { FromZero(s, b); }
  }

  lemma OnesGrow(k: nat)
    ensures Ones(k + 1) == Grown(Ones(k))
  {
  }

  lemma OneBitBack(s: Word, b: bool, k: nat)
    requires k < 32 && Fits(Shift(Xor(s, Bit(b))), k)
    ensures Fits(s, k + 1)
    ensures s == 0 ==> !b && Shift(Xor(s, Bit(b))) == 0
  {
    hide Shift, Xor, Bit, Ones, Under, Grown;
    OnesFit(k);
    OnesGrow(k);
    ShiftBack(s, b, Ones(k));
  }

  /** At most 32 bits that drive the register to zero say all that was in it; if it was zero before,
      none of them is set. */
  lemma {:induction false} BurstCancels(s: Word, e: seq<bool>)
    requires |e| <= 32 && Feed(s, e) == 0
    ensures Fits(s, |e|)
    ensures s == 0 ==> NoOnes(e)
    decreases |e|
  {
    hide Shift, Xor, Bit, Fits;
    if e == [] {
      assert Fits(0, 0) by { NothingFits(); }
    } else {
      var next := Shift(Xor(s, Bit(e[0])));
      BurstCancels(next, e[1..]);
      OneBitBack(s, e[0], |e| - 1);
    }
  }

  lemma NothingFits()
    ensures Fits(0, 0)
  {
  }

  lemma XorSelf(a: Word)
    ensures Xor(a, a) == 0 && Xor(a, 0) == a && Xor(0, a) == a
  {
  }

  lemma XorZero(a: Word, b: Word)
    ensures Xor(a, b) == 0 <==> a == b
  {
    hide Xor;
    XorSelf(a);
    XorSelf(b);
    XorAssoc(a, b, b);
  }

  /** Two messages get the same checksum exactly when their difference alone leaves the register empty. */
  lemma SameCrc(crc: Word, m: seq<Byte>, m': seq<Byte>)
    requires |m| == |m'|
    ensures Crc(crc, m) == Crc(crc, m') <==> Feed(0, XorBits(BitsOf(m), BitsOf(m'))) == 0
  {
    hide Xor, Flip, Feed, BitsOf, XorBits;
    var s := Flip(crc);
    FeedLinear(s, s, BitsOf(m), BitsOf(m'));
    XorSelf(s);
    XorZero(Feed(s, BitsOf(m)), Feed(s, BitsOf(m')));
    FlipTwice(Feed(s, BitsOf(m)));
    FlipTwice(Feed(s, BitsOf(m')));
  }

  lemma FlipTwice(s: Word)
    ensures Flip(Flip(s)) == s
  {
  }

  lemma NibbleInjective(n: Word, n': Word)
    requires n < 16 && n' < 16 && Nibble(n) == Nibble(n')
    ensures n == n'
  {
    assert forall i {:trigger Nibble(n)[i]} :: 0 <= i < 4 ==> Nibble(n)[i] == Nibble(n')[i];
  }

  lemma ByteBitsInjective(b: Byte, b': Byte)
    requires ByteBits(b) == ByteBits(b')
    ensures b == b'
  {
    hide Nibble;
    assert ByteBits(b)[..4] == Nibble(Lo(b)) && ByteBits(b)[4..] == Nibble(Hi(b)) by { NibbleLength(b); }
    assert ByteBits(b')[..4] == Nibble(Lo(b')) && ByteBits(b')[4..] == Nibble(Hi(b')) by { NibbleLength(b'); }
    NibbleInjective(Lo(b), Lo(b'));
    NibbleInjective(Hi(b), Hi(b'));
  }

  lemma NibbleLength(b: Byte)
    ensures |Nibble(Lo(b))| == 4 && |Nibble(Hi(b))| == 4
  {
  }

  /** The bits of a message determine it. */
  lemma {:induction false} BitsInjective(m: seq<Byte>, m': seq<Byte>)
    requires |m| == |m'| && BitsOf(m) == BitsOf(m')
    ensures m == m'
  {
    hide ByteBits;
    if m != [] {
      var x, x' := BitsOf(m[1..]), BitsOf(m'[1..]);
      ByteBitsLength(m[0]);
      ByteBitsLength(m'[0]);
      assert BitsOf(m)[..8] == ByteBits(m[0]) && BitsOf(m)[8..] == x;
      assert BitsOf(m')[..8] == ByteBits(m'[0]) && BitsOf(m')[8..] == x';
      ByteBitsInjective(m[0], m'[0]);
      BitsInjective(m[1..], m'[1..]);
    }
  }

  lemma ByteBitsLength(b: Byte)
    ensures |ByteBits(b)| == 8
  {
  }

  lemma SplitThree(e: seq<bool>, lo: nat, hi: nat)
    requires lo <= hi <= |e|
    ensures e == e[..lo] + (e[lo..hi] + e[hi..])
  {
  }

  /** Difference bits confined to a window of 32 leave the register empty only if there are none. */
  lemma WindowCancels(e: seq<bool>, k: nat)
    requires forall i :: 0 <= i < |e| && !(k <= i < k + 32) ==> !e[i]
    requires Feed(0, e) == 0
    ensures NoOnes(e)
  {
    hide Feed;
    var lo := if k <= |e| then k else |e|;
    var hi := if k + 32 <= |e| then k + 32 else |e|;
    var before, burst, after := e[..lo], e[lo..hi], e[hi..];
    SplitThree(e, lo, hi);
    FeedAppend(0, before, burst + after);
    FeedNoOnes(0, before);
    FeedAppend(0, burst, after);
    FeedNoOnes(Feed(0, burst), after);
    BurstCancels(0, burst);
  }

  /** Error detection: whatever happens to the bits inside a window of 32, at any bit position of a
      message of any length, the checksum changes. */
  lemma BurstDetected(crc: Word, m: seq<Byte>, m': seq<Byte>, k: nat)
    requires |m| == |m'| && m != m'
    requires forall i :: 0 <= i < 8 * |m| && !(k <= i < k + 32) ==> BitsOf(m)[i] == BitsOf(m')[i]
    ensures Crc(crc, m) != Crc(crc, m')
  {
    hide Feed, BitsOf, Crc;
    SameCrc(crc, m, m');
    if Crc(crc, m) == Crc(crc, m') {
      WindowCancels(XorBits(BitsOf(m), BitsOf(m')), k);
      assert BitsOf(m) == BitsOf(m');
      BitsInjective(m, m');
    }
  }

  lemma {:induction false} BitsSplit(m: seq<Byte>, k: nat)
    requires k <= |m|
    ensures BitsOf(m) == BitsOf(m[..k]) + BitsOf(m[k..])
  {
    hide ByteBits;
    if k == 0 {
      assert m[..0] == [] && m[0..] == m;
    } else {
      BitsSplit(m[1..], k - 1);
      assert m[..k][1..] == m[1..][..k - 1] && m[1..][k - 1..] == m[k..];
    }
  }

  /** In particular, corrupting up to four consecutive bytes changes the checksum. */
  lemma FourBytesDetected(crc: Word, before: seq<Byte>, x: seq<Byte>, y: seq<Byte>, after: seq<Byte>)
    requires |x| == |y| <= 4 && x != y
    ensures Crc(crc, before + x + after) != Crc(crc, before + y + after)
  {
    hide BitsOf, Crc;
    var m, m' := before + x + after, before + y + after;
    var k, n := |before|, |before| + |x|;
    assert m[k..n] == x && m'[k..n] == y;
    BitsSplit(m, n);
    BitsSplit(m', n);
    BitsSplit(m[..n], k);
    BitsSplit(m'[..n], k);
    assert m[..n][..k] == before == m'[..n][..k];
    assert m[..n][k..] == x && m'[..n][k..] == y && m[n..] == after == m'[n..];
    BurstDetected(crc, m, m', 8 * k);
  }

  /** A checksum can be continued: the first argument carries the checksum of what came before. */
  lemma Continued(crc: Word, a: seq<Byte>, b: seq<Byte>)
    ensures Crc(Crc(crc, a), b) == Crc(crc, a + b)
  {
    hide Flip, Feed;
    BitsSplit(a + b, |a|);
    assert (a + b)[..|a|] == a && (a + b)[|a|..] == b;
    FeedAppend(Flip(crc), BitsOf(a), BitsOf(b));
    FlipTwice(Feed(Flip(crc), BitsOf(a)));
  }

  // ---------------------------------------------------------------- what the inversion is for

  /** The register forgets nothing: different contents stay different, whatever is fed. */
  lemma FeedInjective(s: Word, t: Word, x: seq<bool>)
    ensures Feed(s, x) == Feed(t, x) <==> s == t
  {
    hide Xor, Feed;
    FeedLinear(s, t, x, x);
    FeedNoOnes(Xor(s, t), XorBits(x, x));
    XorZero(Feed(s, x), Feed(t, x));
    XorZero(s, t);
  }

  /** Only the empty register survives eight shifts. */
  lemma Shift8Moves(s: Word)
    ensures Shift8(s) == s <==> s == 0
  {
  }

  lemma InvertedIs(crc: Word)
    ensures Flip(crc) == 0 <==> crc == 0xffff_ffff
    ensures Flip(0) == 0xffff_ffff && Flip(0xdebb_20e3) == 0x2144_df1c
  {
  }

  /** A zero byte in front changes the checksum, unless the run starts from all ones; started from zero, as the
      callers do, it always does. */
  lemma LeadingZeroSeen(crc: Word, msg: seq<Byte>)
    ensures Crc(crc, [0] + msg) == Crc(crc, msg) <==> crc == 0xffff_ffff
  {
    hide Flip, Feed, BitsOf, Shift8, ByteBits;
    var s := Flip(crc);
    ZeroByte(s, msg);
    FeedInjective(Shift8(s), s, BitsOf(msg));
    Shift8Moves(s);
    InvertedIs(crc);
    FlipTwice(Feed(s, BitsOf(msg)));
    FlipTwice(Feed(Shift8(s), BitsOf(msg)));
  }

  lemma ZeroByte(s: Word, msg: seq<Byte>)
    ensures Feed(s, BitsOf([0] + msg)) == Feed(Shift8(s), BitsOf(msg))
  {
    hide Shift8, ByteBits, Feed, Step, Xor;
    assert ([0] + msg)[1..] == msg && ([0] + msg)[0] == 0;
    FeedByte(s, 0, BitsOf(msg));
    StepIsShift8(s, 0);
    XorSelf(s);
  }

  // ---------------------------------------------------------------- a message with its own checksum

  /** A checksum as four bytes, low byte first. */
  function Bytes(crc: Word): seq<Byte> {
    [(crc & 0xff) as Byte, ((crc >> 8) & 0xff) as Byte, ((crc >> 16) & 0xff) as Byte, (crc >> 24) as Byte]
  }

  /** The register over its own inverted bytes: each step leaves a constant and what has not been used up. */
  lemma OwnBytes0(s: Word)
    ensures Step(s, Bytes(Flip(s))[0]) == Xor(0x2d02_ef8d, s >> 8)
  {
    hide Table;
    OwnEntries();
    assert Index(s, Bytes(Flip(s))[0]) == 0xff;
  }

  lemma OwnEntries()
    ensures Table(0xff) == 0x2d02_ef8d
    ensures Table(0x72) == 0xbe0b_1010
    ensures Table(0x0) == 0x0000_0000
    ensures Table(0xed) == 0xdebb_9ec5
    ensures Xor(0xbe0b_1010, 0x002d_02ef) == 0xbe26_12ff
    ensures Xor(0x0000_0000, 0x00be_2612) == 0x00be_2612
    ensures Xor(0xdebb_9ec5, 0x0000_be26) == 0xdebb_20e3
  {
  }

  lemma OwnIndex1(s: Word)
    ensures Index(Xor(0x2d02_ef8d, s >> 8), Bytes(Flip(s))[1]) == 0x72
    ensures Xor(0x2d02_ef8d, s >> 8) >> 8 == Xor(0x002d_02ef, s >> 16)
  {
  }

  lemma OwnBytes1(s: Word)
    ensures Step(Xor(0x2d02_ef8d, s >> 8), Bytes(Flip(s))[1]) == Xor(0xbe26_12ff, s >> 16)
  {
    hide Table, Index, Xor, Bytes, Flip;
    OwnEntries();
    OwnIndex1(s);
    XorAssoc(0xbe0b_1010, 0x002d_02ef, s >> 16);
  }

  lemma OwnIndex2(s: Word)
    ensures Index(Xor(0xbe26_12ff, s >> 16), Bytes(Flip(s))[2]) == 0x0
    ensures Xor(0xbe26_12ff, s >> 16) >> 8 == Xor(0x00be_2612, s >> 24)
  {
  }

  lemma OwnBytes2(s: Word)
    ensures Step(Xor(0xbe26_12ff, s >> 16), Bytes(Flip(s))[2]) == Xor(0x00be_2612, s >> 24)
  {
    hide Table, Index, Xor, Bytes, Flip;
    OwnEntries();
    OwnIndex2(s);
    XorAssoc(0x0000_0000, 0x00be_2612, s >> 24);
  }

  lemma OwnIndex3(s: Word)
    ensures Index(Xor(0x00be_2612, s >> 24), Bytes(Flip(s))[3]) == 0xed
    ensures Xor(0x00be_2612, s >> 24) >> 8 == Xor(0x0000_be26, 0)
  {
  }

  lemma OwnBytes3(s: Word)
    ensures Step(Xor(0x00be_2612, s >> 24), Bytes(Flip(s))[3]) == Xor(0xdebb_20e3, 0)
  {
    hide Table, Index, Xor, Bytes, Flip;
    OwnEntries();
    OwnIndex3(s);
    XorAssoc(0xdebb_9ec5, 0x0000_be26, 0);
  }

  lemma StepsOver(s: Word, b: Byte, rest: seq<Byte>)
    ensures Steps(s, [b] + rest) == Steps(Step(s, b), rest)
  {
    hide Step;
    assert ([b] + rest)[1..] == rest;
  }

  lemma OwnBytes(s: Word)
    ensures Steps(s, Bytes(Flip(s))) == 0xdebb_20e3
  {
    hide Step, Flip, Steps, Xor;
    var b := Bytes(Flip(s));
    assert b == [b[0]] + ([b[1]] + ([b[2]] + ([b[3]] + [])));
    hide Bytes;
    OwnBytes0(s);
    OwnBytes1(s);
    OwnBytes2(s);
    OwnBytes3(s);
    StepsOver(s, b[0], [b[1]] + ([b[2]] + ([b[3]] + [])));
    StepsOver(Xor(0x2d02_ef8d, s >> 8), b[1], [b[2]] + ([b[3]] + []));
    StepsOver(Xor(0xbe26_12ff, s >> 16), b[2], [b[3]] + []);
    StepsOver(Xor(0x00be_2612, s >> 24), b[3], []);
    XorSelf(0xdebb_20e3);
    NoSteps(0xdebb_20e3);
  }

  lemma NoSteps(s: Word)
    ensures Steps(s, []) == s
  {
  }

  /** A message followed by its own checksum, low byte first, has one and the same checksum, whatever the message. */
  lemma Residue(crc: Word, msg: seq<Byte>)
    ensures Crc(crc, msg + Bytes(Crc(crc, msg))) == 0x2144_df1c
  {
    hide Flip, Feed, BitsOf, Bytes, Steps;
    var s := Feed(Flip(crc), BitsOf(msg));
    var own := Bytes(Flip(s));
    BitsSplit(msg + own, |msg|);
    assert (msg + own)[..|msg|] == msg && (msg + own)[|msg|..] == own;
    FeedAppend(Flip(crc), BitsOf(msg), BitsOf(own));
    StepsIsFeed(s, own);
    OwnBytes(s);
    InvertedIs(crc);
  }

  // ---------------------------------------------------------------- the check value

  /** The checksum of nothing, and of the digits 1 to 9 in ASCII. */
  lemma CheckValue()
    ensures Crc(0, []) == 0
    ensures Crc(0, [0x31, 0x32, 0x33, 0x34, 0x35, 0x36, 0x37, 0x38, 0x39]) == 0xcbf4_3926
  {
    hide Flip, Feed, BitsOf, Steps;
    var digits: seq<Byte> := [0x31, 0x32, 0x33, 0x34, 0x35, 0x36, 0x37, 0x38, 0x39];
    StepsIsFeed(0xffff_ffff, digits);
    StepsIsFeed(0xffff_ffff, []);
    NoSteps(0xffff_ffff);
    CheckSteps();
    CheckInverted();
  }

  lemma CheckInverted()
    ensures Flip(0) == 0xffff_ffff && Flip(0xffff_ffff) == 0 && Flip(0x340b_c6d9) == 0xcbf4_3926
  {
  }

  lemma CheckBytes0()
    ensures Step(0xffff_ffff, 0x31) == 0x7c23_1048
    ensures Step(0x7c23_1048, 0x32) == 0xb0ac_bb32
    ensures Step(0xb0ac_bb32, 0x33) == 0x77b7_9c2d
  {
    hide Step;
    StepIsShift8(0xffff_ffff, 0x31);
    StepIsShift8(0x7c23_1048, 0x32);
    StepIsShift8(0xb0ac_bb32, 0x33);
  }

  lemma CheckBytes3()
    ensures Step(0x77b7_9c2d, 0x34) == 0x641c_1f5c
    ensures Step(0x641c_1f5c, 0x35) == 0x340a_c5e3
    ensures Step(0x340a_c5e3, 0x36) == 0xf68d_2c9e
  {
    hide Step;
    StepIsShift8(0x77b7_9c2d, 0x34);
    StepIsShift8(0x641c_1f5c, 0x35);
    StepIsShift8(0x340a_c5e3, 0x36);
  }

  lemma CheckBytes6()
    ensures Step(0xf68d_2c9e, 0x37) == 0xaffc_9660
    ensures Step(0xaffc_9660, 0x38) == 0x651f_2550
    ensures Step(0x651f_2550, 0x39) == 0x340b_c6d9
  {
    hide Step;
    StepIsShift8(0xf68d_2c9e, 0x37);
    StepIsShift8(0xaffc_9660, 0x38);
    StepIsShift8(0x651f_2550, 0x39);
  }

  lemma CheckSteps()
    ensures Steps(0xffff_ffff, [0x31, 0x32, 0x33, 0x34, 0x35, 0x36, 0x37, 0x38, 0x39]) == 0x340b_c6d9
  {
    hide Step, Steps;
    CheckBytes0();
    CheckBytes3();
    CheckBytes6();
    StepsOver(0xffff_ffff, 0x31, [0x32, 0x33, 0x34, 0x35, 0x36, 0x37, 0x38, 0x39]);
    StepsOver(0x7c23_1048, 0x32, [0x33, 0x34, 0x35, 0x36, 0x37, 0x38, 0x39]);
    StepsOver(0xb0ac_bb32, 0x33, [0x34, 0x35, 0x36, 0x37, 0x38, 0x39]);
    StepsOver(0x77b7_9c2d, 0x34, [0x35, 0x36, 0x37, 0x38, 0x39]);
    StepsOver(0x641c_1f5c, 0x35, [0x36, 0x37, 0x38, 0x39]);
    StepsOver(0x340a_c5e3, 0x36, [0x37, 0x38, 0x39]);
    StepsOver(0xf68d_2c9e, 0x37, [0x38, 0x39]);
    StepsOver(0xaffc_9660, 0x38, [0x39]);
    StepsOver(0x651f_2550, 0x39, []);
    assert [0x31 as Byte] + [0x32, 0x33, 0x34, 0x35, 0x36, 0x37, 0x38, 0x39] ==
           [0x31, 0x32, 0x33, 0x34, 0x35, 0x36, 0x37, 0x38, 0x39];
    assert [0x32 as Byte] + [0x33, 0x34, 0x35, 0x36, 0x37, 0x38, 0x39] ==
           [0x32, 0x33, 0x34, 0x35, 0x36, 0x37, 0x38, 0x39];
    assert [0x33 as Byte] + [0x34, 0x35, 0x36, 0x37, 0x38, 0x39] == [0x33, 0x34, 0x35, 0x36, 0x37, 0x38, 0x39];
    assert [0x34 as Byte] + [0x35, 0x36, 0x37, 0x38, 0x39] == [0x34, 0x35, 0x36, 0x37, 0x38, 0x39];
    assert [0x35 as Byte] + [0x36, 0x37, 0x38, 0x39] == [0x35, 0x36, 0x37, 0x38, 0x39];
    assert [0x36 as Byte] + [0x37, 0x38, 0x39] == [0x36, 0x37, 0x38, 0x39];
    assert [0x37 as Byte] + [0x38, 0x39] == [0x37, 0x38, 0x39];
    assert [0x38 as Byte] + [0x39] == [0x38, 0x39];
    assert [0x39 as Byte] + [] == [0x39];
    NoSteps(0x340b_c6d9);
  }
}
