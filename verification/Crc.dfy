/**
 * The checksum of data blocks (fteqtv/crc.c): a table with an entry for every byte, against the division of
 * the message by the polynomial x^16 + x^12 + x^5 + 1 one bit at a time (section 2 of ITU-T V.41).
 */
module Crc {
  const INIT_VALUE: bv16 := 0xffff
  const POLYNOMIAL: bv16 := 0x1021

  const ROW0: seq<bv16> := [
    0x0000, 0x1021, 0x2042, 0x3063, 0x4084, 0x50a5, 0x60c6, 0x70e7,
    0x8108, 0x9129, 0xa14a, 0xb16b, 0xc18c, 0xd1ad, 0xe1ce, 0xf1ef]
  const ROW1: seq<bv16> := [
    0x1231, 0x0210, 0x3273, 0x2252, 0x52b5, 0x4294, 0x72f7, 0x62d6,
    0x9339, 0x8318, 0xb37b, 0xa35a, 0xd3bd, 0xc39c, 0xf3ff, 0xe3de]
  const ROW2: seq<bv16> := [
    0x2462, 0x3443, 0x0420, 0x1401, 0x64e6, 0x74c7, 0x44a4, 0x5485,
    0xa56a, 0xb54b, 0x8528, 0x9509, 0xe5ee, 0xf5cf, 0xc5ac, 0xd58d]
  const ROW3: seq<bv16> := [
    0x3653, 0x2672, 0x1611, 0x0630, 0x76d7, 0x66f6, 0x5695, 0x46b4,
    0xb75b, 0xa77a, 0x9719, 0x8738, 0xf7df, 0xe7fe, 0xd79d, 0xc7bc]
  const ROW4: seq<bv16> := [
    0x48c4, 0x58e5, 0x6886, 0x78a7, 0x0840, 0x1861, 0x2802, 0x3823,
    0xc9cc, 0xd9ed, 0xe98e, 0xf9af, 0x8948, 0x9969, 0xa90a, 0xb92b]
  const ROW5: seq<bv16> := [
    0x5af5, 0x4ad4, 0x7ab7, 0x6a96, 0x1a71, 0x0a50, 0x3a33, 0x2a12,
    0xdbfd, 0xcbdc, 0xfbbf, 0xeb9e, 0x9b79, 0x8b58, 0xbb3b, 0xab1a]
  const ROW6: seq<bv16> := [
    0x6ca6, 0x7c87, 0x4ce4, 0x5cc5, 0x2c22, 0x3c03, 0x0c60, 0x1c41,
    0xedae, 0xfd8f, 0xcdec, 0xddcd, 0xad2a, 0xbd0b, 0x8d68, 0x9d49]
  const ROW7: seq<bv16> := [
    0x7e97, 0x6eb6, 0x5ed5, 0x4ef4, 0x3e13, 0x2e32, 0x1e51, 0x0e70,
    0xff9f, 0xefbe, 0xdfdd, 0xcffc, 0xbf1b, 0xaf3a, 0x9f59, 0x8f78]
  const ROW8: seq<bv16> := [
    0x9188, 0x81a9, 0xb1ca, 0xa1eb, 0xd10c, 0xc12d, 0xf14e, 0xe16f,
    0x1080, 0x00a1, 0x30c2, 0x20e3, 0x5004, 0x4025, 0x7046, 0x6067]
  const ROW9: seq<bv16> := [
    0x83b9, 0x9398, 0xa3fb, 0xb3da, 0xc33d, 0xd31c, 0xe37f, 0xf35e,
    0x02b1, 0x1290, 0x22f3, 0x32d2, 0x4235, 0x5214, 0x6277, 0x7256]
  const ROW10: seq<bv16> := [
    0xb5ea, 0xa5cb, 0x95a8, 0x8589, 0xf56e, 0xe54f, 0xd52c, 0xc50d,
    0x34e2, 0x24c3, 0x14a0, 0x0481, 0x7466, 0x6447, 0x5424, 0x4405]
  const ROW11: seq<bv16> := [
    0xa7db, 0xb7fa, 0x8799, 0x97b8, 0xe75f, 0xf77e, 0xc71d, 0xd73c,
    0x26d3, 0x36f2, 0x0691, 0x16b0, 0x6657, 0x7676, 0x4615, 0x5634]
  const ROW12: seq<bv16> := [
    0xd94c, 0xc96d, 0xf90e, 0xe92f, 0x99c8, 0x89e9, 0xb98a, 0xa9ab,
    0x5844, 0x4865, 0x7806, 0x6827, 0x18c0, 0x08e1, 0x3882, 0x28a3]
  const ROW13: seq<bv16> := [
    0xcb7d, 0xdb5c, 0xeb3f, 0xfb1e, 0x8bf9, 0x9bd8, 0xabbb, 0xbb9a,
    0x4a75, 0x5a54, 0x6a37, 0x7a16, 0x0af1, 0x1ad0, 0x2ab3, 0x3a92]
  const ROW14: seq<bv16> := [
    0xfd2e, 0xed0f, 0xdd6c, 0xcd4d, 0xbdaa, 0xad8b, 0x9de8, 0x8dc9,
    0x7c26, 0x6c07, 0x5c64, 0x4c45, 0x3ca2, 0x2c83, 0x1ce0, 0x0cc1]
  const ROW15: seq<bv16> := [
    0xef1f, 0xff3e, 0xcf5d, 0xdf7c, 0xaf9b, 0xbfba, 0x8fd9, 0x9ff8,
    0x6e17, 0x7e36, 0x4e55, 0x5e74, 0x2e93, 0x3eb2, 0x0ed1, 0x1ef0]

  const ROWS: seq<seq<bv16>> := [
    ROW0, ROW1, ROW2, ROW3, ROW4, ROW5, ROW6, ROW7, ROW8, ROW9, ROW10, ROW11, ROW12, ROW13, ROW14, ROW15]

  /** crctable, sixteen entries a row. */
  function Table(i: bv16): bv16
    requires i < 0x100
  {
    ROWS[(i >> 4) as int][(i & 0xf) as int]
  }

  // ---------- One bit at a time ----------

  function Xor(a: bv16, b: bv16): bv16 {
    a ^ b
  }

  function Shl(a: bv16): bv16 {
    a << 1
  }

  predicate Top(a: bv16) {
    a & 0x8000 != 0
  }

  /** The next bit of the message goes through the register. */
  function Divided(crc: bv16, bit: bool): bv16 {
    if Top(crc) != bit then Xor(Shl(crc), POLYNOMIAL) else Shl(crc)
  }

  /** The bits of a byte, the highest first. */
  function Bits(b: bv8): (r: seq<bool>)
    ensures |r| == 8
  {
    [b & 0x80 != 0, b & 0x40 != 0, b & 0x20 != 0, b & 0x10 != 0,
     b & 0x08 != 0, b & 0x04 != 0, b & 0x02 != 0, b & 0x01 != 0]
  }

  function AllBits(data: seq<bv8>): seq<bool> {
    if data == [] then [] else AllBits(data[..|data| - 1]) + Bits(data[|data| - 1])
  }

  function Remainder(crc: bv16, bits: seq<bool>): bv16 {
    if bits == [] then crc else Divided(Remainder(crc, bits[..|bits| - 1]), bits[|bits| - 1])
  }

  // ---------- One byte at a time ----------

  function High(x: bv16): (r: bv16)
    ensures r < 0x100
  {
    x >> 8
  }

  function Low(x: bv16): bv16 {
    x & 0xff
  }

  function Up(x: bv16): bv16 {
    x << 8
  }

  /** QCRC_ProcessByte. */
  function Process(crc: bv16, b: bv8): bv16 {
    Xor(Up(crc), Table(Xor(High(crc), b as bv16)))
  }

  function ProcessAll(crc: bv16, data: seq<bv8>): bv16 {
    if data == [] then crc else Process(ProcessAll(crc, data[..|data| - 1]), data[|data| - 1])
  }

  function Next(x: bv16): bv16 {
    Divided(x, false)
  }

  function Eight(x: bv16): bv16 {
    Next(Next(Next(Next(Next(Next(Next(Next(x))))))))
  }

  lemma FirstRow(n: bv16)
    requires n < 0x10
    ensures ROW0[n as int] == Eight(n << 8)
  {
  }

  lemma LowColumn()
    ensures ROW0[0] == Eight(0x0000) && ROW1[0] == Eight(0x1000) && ROW2[0] == Eight(0x2000) && ROW3[0] == Eight(0x3000)
    ensures ROW4[0] == Eight(0x4000) && ROW5[0] == Eight(0x5000) && ROW6[0] == Eight(0x6000) && ROW7[0] == Eight(0x7000)
  {
  }

  lemma HighColumn()
    ensures ROW8[0] == Eight(0x8000) && ROW9[0] == Eight(0x9000)
    ensures ROW10[0] == Eight(0xa000) && ROW11[0] == Eight(0xb000)
    ensures ROW12[0] == Eight(0xc000) && ROW13[0] == Eight(0xd000)
    ensures ROW14[0] == Eight(0xe000) && ROW15[0] == Eight(0xf000)
  {
  }

  lemma FirstColumn(n: bv16)
    requires n < 0x10
    ensures |ROWS[n as int]| == 16 && ROWS[n as int][0] == Eight(n << 12)
  {
    hide Eight;
    LowColumn();
    HighColumn();
  }

  /** The entries of the first row with another one added. */
  function Added(c: bv16): (row: seq<bv16>)
    ensures |row| == 16
  {
    [Xor(c, 0x0000), Xor(c, 0x1021), Xor(c, 0x2042), Xor(c, 0x3063),
     Xor(c, 0x4084), Xor(c, 0x50a5), Xor(c, 0x60c6), Xor(c, 0x70e7),
     Xor(c, 0x8108), Xor(c, 0x9129), Xor(c, 0xa14a), Xor(c, 0xb16b),
     Xor(c, 0xc18c), Xor(c, 0xd1ad), Xor(c, 0xe1ce), Xor(c, 0xf1ef)]
  }

  lemma FirstRows()
    ensures ROW0 == Added(0x0000) && ROW1 == Added(0x1231)
    ensures ROW2 == Added(0x2462) && ROW3 == Added(0x3653)
  {
  }

  lemma SecondRows()
    ensures ROW4 == Added(0x48c4) && ROW5 == Added(0x5af5)
    ensures ROW6 == Added(0x6ca6) && ROW7 == Added(0x7e97)
  {
  }

  lemma ThirdRows()
    ensures ROW8 == Added(0x9188) && ROW9 == Added(0x83b9)
    ensures ROW10 == Added(0xb5ea) && ROW11 == Added(0xa7db)
  {
  }

  lemma LastRows()
    ensures ROW12 == Added(0xd94c) && ROW13 == Added(0xcb7d)
    ensures ROW14 == Added(0xfd2e) && ROW15 == Added(0xef1f)
  {
  }

  /** Every row is the first row with its first entry added. */
  lemma RowOf(r: nat)
    requires r < 16
    ensures exists c :: ROWS[r] == Added(c)
  {
    hide Added, ROW0, ROW1, ROW2, ROW3, ROW4, ROW5, ROW6, ROW7, ROW8, ROW9, ROW10,
         ROW11, ROW12, ROW13, ROW14, ROW15;
    FirstRows();
    SecondRows();
    ThirdRows();
    LastRows();
  }

  lemma EntryOf(c: bv16, n: nat)
    requires n < 16
    ensures Added(c)[0] == c && Added(c)[n] == Xor(c, ROW0[n])
  {
  }

  // ---------- The register is linear ----------

  lemma ShlXor(x: bv16, y: bv16)
    ensures Shl(Xor(x, y)) == Xor(Shl(x), Shl(y))
  {
  }

  lemma TopXor(x: bv16, y: bv16)
    ensures Top(Xor(x, y)) == (Top(x) != Top(y))
  {
  }

  lemma LastTwo(p: bv16, q: bv16, k: bv16)
    ensures Xor(Xor(p, k), q) == Xor(Xor(p, q), k)
  {
  }

  lemma Grouped(p: bv16, q: bv16, k: bv16)
    ensures Xor(p, Xor(q, k)) == Xor(Xor(p, q), k)
  {
  }

  lemma Cancelled(p: bv16, k: bv16)
    ensures Xor(Xor(p, k), k) == p
  {
  }

  lemma Rearranged(p: bv16, q: bv16, k: bv16)
    ensures Xor(Xor(p, k), q) == Xor(Xor(p, q), k)
    ensures Xor(p, Xor(q, k)) == Xor(Xor(p, q), k)
    ensures Xor(Xor(p, k), Xor(q, k)) == Xor(p, q)
  {
    hide Xor;
    LastTwo(p, q, k);
    Grouped(p, q, k);
    Grouped(Xor(p, k), q, k);
    Cancelled(Xor(p, q), k);
  }

  lemma NextOfXor(x: bv16, y: bv16)
    ensures Next(Xor(x, y)) == Xor(Next(x), Next(y))
    ensures Next(Xor(x, y)) == Xor(Divided(x, Top(y)), Shl(y))
  {
    hide Xor, Shl, Top;
    ShlXor(x, y);
    TopXor(x, y);
    Rearranged(Shl(x), Shl(y), POLYNOMIAL);
  }

  lemma EightOfXor(x: bv16, y: bv16)
    ensures Eight(Xor(x, y)) == Xor(Eight(x), Eight(y))
  {
    hide Next, Xor;
    var a, b := x, y;
    NextOfXor(a, b);
    a, b := Next(a), Next(b);
    NextOfXor(a, b);
    a, b := Next(a), Next(b);
    NextOfXor(a, b);
    a, b := Next(a), Next(b);
    NextOfXor(a, b);
    a, b := Next(a), Next(b);
    NextOfXor(a, b);
    a, b := Next(a), Next(b);
    NextOfXor(a, b);
    a, b := Next(a), Next(b);
    NextOfXor(a, b);
    a, b := Next(a), Next(b);
    NextOfXor(a, b);
  }

  lemma NextOfLow(x: bv16)
    requires x & 0x8000 == 0
    ensures Next(x) == x << 1
  {
  }

  /** The low byte moves up unchanged. */
  lemma EightOfLow(x: bv16)
    requires x & 0xff00 == 0
    ensures Eight(x) == Up(x)
  {
    hide Next;
    NextOfLow(x);
    NextOfLow(x << 1);
    NextOfLow(x << 2);
    NextOfLow(x << 3);
    NextOfLow(x << 4);
    NextOfLow(x << 5);
    NextOfLow(x << 6);
    NextOfLow(x << 7);
  }

  lemma Halves(x: bv16)
    ensures x == Xor(Up(High(x)), Low(x)) && Low(x) & 0xff00 == 0 && Up(Low(x)) == Up(x)
  {
  }

  lemma ByteIn(crc: bv16, b: bv8)
    ensures var x := Xor(crc, Up(b as bv16)); Xor(High(crc), b as bv16) == High(x) && Up(x) == Up(crc)
  {
  }

  lemma Swapped(x: bv16, y: bv16)
    ensures Xor(x, y) == Xor(y, x)
  {
  }

  lemma Nibbles(i: bv16)
    requires i < 0x100
    ensures i >> 4 < 0x10 && i & 0xf < 0x10 && i << 8 == Xor((i >> 4) << 12, (i & 0xf) << 8)
  {
  }

  /** Every entry of the table is the remainder of its index. */
  lemma TableIsRemainder(i: bv16)
    requires i < 0x100
    ensures Table(i) == Eight(Up(i))
  {
    hide Eight, Xor;
    var r, n := i >> 4, i & 0xf;
    Nibbles(i);
    FirstRow(n);
    FirstColumn(r);
    EightOfXor(r << 12, n << 8);
    RowOf(r as int);
    var c :| ROWS[r as int] == Added(c);
    EntryOf(c, n as int);
  }

  /** The table does eight bits at once. */
  lemma EightByTable(x: bv16)
    ensures Eight(x) == Xor(Up(x), Table(High(x)))
  {
    hide Eight, Table, Xor, High, Low, Up;
    Halves(x);
    TableIsRemainder(High(x));
    EightOfXor(Up(High(x)), Low(x));
    EightOfLow(Low(x));
    Swapped(Up(x), Table(High(x)));
  }

  lemma ProcessIsEight(crc: bv16, b: bv8)
    ensures Process(crc, b) == Eight(Xor(crc, Up(b as bv16)))
  {
    hide Eight, Table, Xor, High, Low, Up;
    var x := Xor(crc, Up(b as bv16));
    ByteIn(crc, b);
    EightByTable(x);
  }

  // ---------- Main results ----------

  /** The register after a bit, when the byte is kept beside it. */
  lemma BitAfterBit(crc: bv16, y: bv16, bit: bool)
    requires bit == Top(y)
    ensures Next(Xor(crc, y)) == Xor(Divided(crc, bit), Shl(y))
  {
    NextOfXor(crc, y);
  }

  lemma RemainderMore(crc: bv16, bits: seq<bool>, bit: bool)
    ensures Remainder(crc, bits + [bit]) == Divided(Remainder(crc, bits), bit)
  {
    assert (bits + [bit])[..|bits|] == bits;
  }

  lemma {:induction false} RemainderOfSum(crc: bv16, a: seq<bool>, b: seq<bool>)
    ensures Remainder(crc, a + b) == Remainder(Remainder(crc, a), b)
  {
    hide Divided;
    if b == [] {
      assert a + b == a;
    } else {
      RemainderOfSum(crc, a, b[..|b| - 1]);
      assert (a + b)[..|a + b| - 1] == a + b[..|b| - 1];
    }
  }

  function Shifted(y: bv16, n: nat): bv16 {
    if n == 0 then y else Shl(Shifted(y, n - 1))
  }

  function Times(x: bv16, n: nat): bv16 {
    if n == 0 then x else Next(Times(x, n - 1))
  }

  lemma ShiftedIs(y: bv16)
    ensures Shifted(y, 0) == y && Shifted(y, 1) == Shl(y) && Shifted(y, 2) == Shl(Shifted(y, 1))
    ensures Shifted(y, 3) == Shl(Shifted(y, 2)) && Shifted(y, 4) == Shl(Shifted(y, 3))
    ensures Shifted(y, 5) == Shl(Shifted(y, 4)) && Shifted(y, 6) == Shl(Shifted(y, 5))
    ensures Shifted(y, 7) == Shl(Shifted(y, 6)) && Shifted(y, 8) == Shl(Shifted(y, 7))
  {
    hide Shl;
  }

  lemma TopBits(b: bv8, n: nat)
    requires n < 8
    ensures Bits(b)[n] == Top(Shifted(Up(b as bv16), n))
  {
    ShiftedIs(Up(b as bv16));
    hide Shifted;
  }

  lemma {:induction false} BitsOfByte(crc: bv16, b: bv8, n: nat)
    requires n <= 8
    ensures Times(Xor(crc, Up(b as bv16)), n) == Xor(Remainder(crc, Bits(b)[..n]), Shifted(Up(b as bv16), n))
  {
    hide Divided, Next, Xor, Up, Bits, Top, Shl;
    if n > 0 {
      BitsOfByte(crc, b, n - 1);
      var bits := Bits(b);
      assert bits[..n] == bits[..n - 1] + [bits[n - 1]];
      RemainderMore(crc, bits[..n - 1], bits[n - 1]);
      TopBits(b, n - 1);
      BitAfterBit(Remainder(crc, bits[..n - 1]), Shifted(Up(b as bv16), n - 1), bits[n - 1]);
    }
  }

  lemma ByteGone(b: bv8)
    ensures Shifted(Up(b as bv16), 8) == 0
  {
    ShiftedIs(Up(b as bv16));
    EightShifts(b);
    hide Shifted, Shl, Up;
  }

  lemma EightShifts(b: bv8)
    ensures Shl(Shl(Shl(Shl(Shl(Shl(Shl(Shl(Up(b as bv16))))))))) == 0
  {
  }

  lemma XorZero(x: bv16)
    ensures Xor(x, 0) == x
  {
  }

  lemma EightTimes(x: bv16)
    ensures Times(x, 8) == Eight(x)
  {
    hide Next;
    assert Times(x, 1) == Next(x);
    assert Times(x, 2) == Next(Times(x, 1));
    assert Times(x, 3) == Next(Times(x, 2));
    assert Times(x, 4) == Next(Times(x, 3));
    assert Times(x, 5) == Next(Times(x, 4));
    assert Times(x, 6) == Next(Times(x, 5));
    assert Times(x, 7) == Next(Times(x, 6));
  }

  /** A byte through the table is its eight bits through the register. */
  lemma ProcessIsDivision(crc: bv16, b: bv8)
    ensures Process(crc, b) == Remainder(crc, Bits(b))
  {
    hide Process, Remainder, Bits, Xor, Up, Shifted, Times, Eight;
    ProcessIsEight(crc, b);
    EightTimes(Xor(crc, Up(b as bv16)));
    BitsOfByte(crc, b, 8);
    assert Bits(b)[..8] == Bits(b);
    ByteGone(b);
    XorZero(Remainder(crc, Bits(b)));
  }

  /** For every byte string the checksum by the table is the remainder of the division, bit by bit. */
  lemma {:induction false} ChecksumIsDivision(crc: bv16, data: seq<bv8>)
    ensures ProcessAll(crc, data) == Remainder(crc, AllBits(data))
  {
    hide Process, Remainder, Bits;
    if data == [] {
      NoBits(crc);
    } else {
      var front, last := data[..|data| - 1], data[|data| - 1];
      ChecksumIsDivision(crc, front);
      ProcessIsDivision(ProcessAll(crc, front), last);
      RemainderOfSum(crc, AllBits(front), Bits(last));
    }
  }

  lemma NoBits(crc: bv16)
    ensures Remainder(crc, []) == crc
  {
  }

  lemma FirstDigits()
    ensures Process(0xffff, 0x31) == 0xc782
    ensures Process(0xc782, 0x32) == 0x3dba
    ensures Process(0x3dba, 0x33) == 0x5bce
    ensures Process(0x5bce, 0x34) == 0x5349
    ensures Process(0x5349, 0x35) == 0x4560
  {
  }

  lemma LastDigits()
    ensures Process(0x4560, 0x36) == 0x2ef4
    ensures Process(0x2ef4, 0x37) == 0x7718
    ensures Process(0x7718, 0x38) == 0xa12b
    ensures Process(0xa12b, 0x39) == 0x29b1
  {
  }

  lemma PrefixMore(crc: bv16, data: seq<bv8>, i: nat)
    requires i < |data|
    ensures ProcessAll(crc, data[..i + 1]) == Process(ProcessAll(crc, data[..i]), data[i])
  {
    hide Process;
    assert data[..i + 1][..i] == data[..i];
  }

  lemma NoBytes(crc: bv16)
    ensures ProcessAll(crc, []) == crc
  {
  }

  /** The check value of this code: what it gives for the digits from 1 to 9. */
  lemma CheckValue()
    ensures ProcessAll(0xffff, [0x31, 0x32, 0x33, 0x34, 0x35, 0x36, 0x37, 0x38, 0x39]) == 0x29b1
  {
    hide Process, ProcessAll;
    var digits: seq<bv8> := [0x31, 0x32, 0x33, 0x34, 0x35, 0x36, 0x37, 0x38, 0x39];
    FirstDigits();
    LastDigits();
    NoBytes(0xffff);
    assert digits[..0] == [];
    PrefixMore(0xffff, digits, 0);
    PrefixMore(0xffff, digits, 1);
    PrefixMore(0xffff, digits, 2);
    PrefixMore(0xffff, digits, 3);
    PrefixMore(0xffff, digits, 4);
    PrefixMore(0xffff, digits, 5);
    PrefixMore(0xffff, digits, 6);
    PrefixMore(0xffff, digits, 7);
    PrefixMore(0xffff, digits, 8);
    assert digits[..9] == digits;
  }

  // ---------- The implementation ----------

  /** QCRC_Block. */
  method Block(data: seq<bv8>) returns (crc: bv16)
    ensures crc == ProcessAll(INIT_VALUE, data) == Remainder(INIT_VALUE, AllBits(data))
    ensures data == [] ==> crc == 0xffff
    ensures data == [0x31, 0x32, 0x33, 0x34, 0x35, 0x36, 0x37, 0x38, 0x39] ==> crc == 0x29b1
  {
    hide Process, Remainder, AllBits;
    crc := INIT_VALUE;
    for i := 0 to |data|
      invariant crc == ProcessAll(INIT_VALUE, data[..i])
    {
      PrefixMore(INIT_VALUE, data, i);
      crc := Process(crc, data[i]);
    }
    assert data[..|data|] == data;
    ChecksumIsDivision(INIT_VALUE, data);
    CheckValue();
  }
}
