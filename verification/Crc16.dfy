/** util/crc16.c: the table-driven CRC-16, proved equal to long division by the generator. */
module Crc16 {
  import opened Division

  /** An unsigned 16-bit value; the wrapper keeps bit-vector reasoning inside the lemmas that need it. */
  datatype Word = Word(v: bv16)

  datatype Byte = Byte(v: bv8)

  /** The integer promotion of an unsigned char. */
  function Widen(b: Byte): Word { Word(b.v as bv16) }

  function Xor(a: Word, b: Word): Word { Word(a.v ^ b.v) }

  // crc16tab, in rows of 16 entries
  const ROW0: seq<bv16> := [0x0000, 0x1021, 0x2042, 0x3063, 0x4084, 0x50a5, 0x60c6, 0x70e7, 0x8108, 0x9129, 0xa14a, 0xb16b, 0xc18c, 0xd1ad, 0xe1ce, 0xf1ef]
  const ROW1: seq<bv16> := [0x1231, 0x0210, 0x3273, 0x2252, 0x52b5, 0x4294, 0x72f7, 0x62d6, 0x9339, 0x8318, 0xb37b, 0xa35a, 0xd3bd, 0xc39c, 0xf3ff, 0xe3de]
  const ROW2: seq<bv16> := [0x2462, 0x3443, 0x0420, 0x1401, 0x64e6, 0x74c7, 0x44a4, 0x5485, 0xa56a, 0xb54b, 0x8528, 0x9509, 0xe5ee, 0xf5cf, 0xc5ac, 0xd58d]
  const ROW3: seq<bv16> := [0x3653, 0x2672, 0x1611, 0x0630, 0x76d7, 0x66f6, 0x5695, 0x46b4, 0xb75b, 0xa77a, 0x9719, 0x8738, 0xf7df, 0xe7fe, 0xd79d, 0xc7bc]
  const ROW4: seq<bv16> := [0x48c4, 0x58e5, 0x6886, 0x78a7, 0x0840, 0x1861, 0x2802, 0x3823, 0xc9cc, 0xd9ed, 0xe98e, 0xf9af, 0x8948, 0x9969, 0xa90a, 0xb92b]
  const ROW5: seq<bv16> := [0x5af5, 0x4ad4, 0x7ab7, 0x6a96, 0x1a71, 0x0a50, 0x3a33, 0x2a12, 0xdbfd, 0xcbdc, 0xfbbf, 0xeb9e, 0x9b79, 0x8b58, 0xbb3b, 0xab1a]
  const ROW6: seq<bv16> := [0x6ca6, 0x7c87, 0x4ce4, 0x5cc5, 0x2c22, 0x3c03, 0x0c60, 0x1c41, 0xedae, 0xfd8f, 0xcdec, 0xddcd, 0xad2a, 0xbd0b, 0x8d68, 0x9d49]
  const ROW7: seq<bv16> := [0x7e97, 0x6eb6, 0x5ed5, 0x4ef4, 0x3e13, 0x2e32, 0x1e51, 0x0e70, 0xff9f, 0xefbe, 0xdfdd, 0xcffc, 0xbf1b, 0xaf3a, 0x9f59, 0x8f78]
  const ROW8: seq<bv16> := [0x9188, 0x81a9, 0xb1ca, 0xa1eb, 0xd10c, 0xc12d, 0xf14e, 0xe16f, 0x1080, 0x00a1, 0x30c2, 0x20e3, 0x5004, 0x4025, 0x7046, 0x6067]
  const ROW9: seq<bv16> := [0x83b9, 0x9398, 0xa3fb, 0xb3da, 0xc33d, 0xd31c, 0xe37f, 0xf35e, 0x02b1, 0x1290, 0x22f3, 0x32d2, 0x4235, 0x5214, 0x6277, 0x7256]
  const ROW10: seq<bv16> := [0xb5ea, 0xa5cb, 0x95a8, 0x8589, 0xf56e, 0xe54f, 0xd52c, 0xc50d, 0x34e2, 0x24c3, 0x14a0, 0x0481, 0x7466, 0x6447, 0x5424, 0x4405]
  const ROW11: seq<bv16> := [0xa7db, 0xb7fa, 0x8799, 0x97b8, 0xe75f, 0xf77e, 0xc71d, 0xd73c, 0x26d3, 0x36f2, 0x0691, 0x16b0, 0x6657, 0x7676, 0x4615, 0x5634]
  const ROW12: seq<bv16> := [0xd94c, 0xc96d, 0xf90e, 0xe92f, 0x99c8, 0x89e9, 0xb98a, 0xa9ab, 0x5844, 0x4865, 0x7806, 0x6827, 0x18c0, 0x08e1, 0x3882, 0x28a3]
  const ROW13: seq<bv16> := [0xcb7d, 0xdb5c, 0xeb3f, 0xfb1e, 0x8bf9, 0x9bd8, 0xabbb, 0xbb9a, 0x4a75, 0x5a54, 0x6a37, 0x7a16, 0x0af1, 0x1ad0, 0x2ab3, 0x3a92]
  const ROW14: seq<bv16> := [0xfd2e, 0xed0f, 0xdd6c, 0xcd4d, 0xbdaa, 0xad8b, 0x9de8, 0x8dc9, 0x7c26, 0x6c07, 0x5c64, 0x4c45, 0x3ca2, 0x2c83, 0x1ce0, 0x0cc1]
  const ROW15: seq<bv16> := [0xef1f, 0xff3e, 0xcf5d, 0xdf7c, 0xaf9b, 0xbfba, 0x8fd9, 0x9ff8, 0x6e17, 0x7e36, 0x4e55, 0x5e74, 0x2e93, 0x3eb2, 0x0ed1, 0x1ef0]

  const CRC16TAB: seq<seq<bv16>> := [
    ROW0, ROW1, ROW2, ROW3, ROW4, ROW5, ROW6, ROW7,
    ROW8, ROW9, ROW10, ROW11, ROW12, ROW13, ROW14, ROW15
  ]

  // ---------- words as bit strings ----------

  function TopBit(c: Word): bool { c.v & 0x8000 != 0 }

  function Shl(c: Word): Word { Word(c.v << 1) }

  function Shls(c: Word, n: nat): Word
    decreases n
  {
    if n == 0 then c else Shls(Shl(c), n - 1)
  }

  /** The n most significant bits of c. */
  function TopBits(c: Word, n: nat): (r: seq<bool>)
    ensures |r| == n
    decreases n
  {
    if n == 0 then [] else [TopBit(c)] + TopBits(Shl(c), n - 1)
  }

  function WordBits(c: Word): (r: seq<bool>)
    ensures |r| == 16
  {
    TopBits(c, 16)
  }

  function Shl8(c: Word): Word { Word(c.v << 8) }

  function ByteBits(b: Byte): (r: seq<bool>)
    ensures |r| == 8
  {
    TopBits(Shl8(Widen(b)), 8)
  }

  function MessageBits(buf: seq<Byte>): (r: seq<bool>)
    ensures |r| == 8 * |buf|
  {
    if buf == [] then [] else MessageBits(buf[..|buf| - 1]) + ByteBits(buf[|buf| - 1])
  }

  lemma {:induction false} TopBitsXor(a: Word, b: Word, n: nat)
    ensures TopBits(Xor(a, b), n) == Add(TopBits(a, n), TopBits(b, n))
    decreases n
  {
    hide TopBit, Shl, Xor;
    if n > 0 {
      ShlLinear(a, b);
      TopBitXor(a, b);
      TopBitsXor(Shl(a), Shl(b), n - 1);
      AddCons(TopBit(a), TopBits(Shl(a), n - 1), TopBit(b), TopBits(Shl(b), n - 1));
    }
  }

  lemma AddCons(x: bool, s: seq<bool>, y: bool, t: seq<bool>)
    requires |s| == |t|
    ensures Add([x] + s, [y] + t) == [x != y] + Add(s, t)
  {
    assert ([x] + s)[1..] == s && ([y] + t)[1..] == t;
  }

  lemma TopBitXor(a: Word, b: Word)
    ensures TopBit(Xor(a, b)) == (TopBit(a) != TopBit(b))
  {
    if TopBit(a) {
      TopBitXorSet(a, b);
    } else {
      TopBitXorClear(a, b);
    }
  }

  lemma TopBitXorSet(a: Word, b: Word)
    requires TopBit(a)
    ensures TopBit(Xor(a, b)) == !TopBit(b)
  {
  }

  lemma TopBitXorClear(a: Word, b: Word)
    requires !TopBit(a)
    ensures TopBit(Xor(a, b)) == TopBit(b)
  {
  }

  lemma {:induction false} TopBitsSplit(c: Word, m: nat, n: nat)
    ensures TopBits(c, m + n) == TopBits(c, m) + TopBits(Shls(c, m), n)
    decreases m
  {
    if m > 0 {
      TopBitsSplit(Shl(c), m - 1, n);
    }
  }

  lemma {:induction false} TopBitsZero(n: nat)
    ensures TopBits(Word(0), n) == Zeros(n)
    decreases n
  {
    if n > 0 {
      TopBitsZero(n - 1);
      assert Shl(Word(0)) == Word(0);
      assert Zeros(n) == [false] + Zeros(n - 1);
    }
  }

  /** Shifting everything out leaves zeros. */
  lemma ShlsAll(c: Word)
    ensures Shls(c, 16) == Word(0)
  {
    ShlsEight(c);
    ShlsEight(Shl8(c));
    ShlsAppend(c, 8, 8);
  }

  lemma ShlsEight(c: Word)
    ensures Shls(c, 8) == Shl8(c)
  {
    var d := Shl(Shl(Shl(Shl(c))));
    assert Shls(c, 8) == Shls(d, 4) == Shl(Shl(Shl(Shl(d))));
  }

  lemma {:induction false} ShlsAppend(c: Word, m: nat, n: nat)
    ensures Shls(c, m + n) == Shls(Shls(c, m), n)
    decreases m
  {
    if m > 0 {
      ShlsAppend(Shl(c), m - 1, n);
    }
  }

  lemma ByteBitsPadded(b: Byte)
    ensures WordBits(Shl8(Widen(b))) == ByteBits(b) + Zeros(8)
  {
    var w := Widen(b);
    TopBitsSplit(Shl8(w), 8, 8);
    ShlsEight(Shl8(w));
    assert Shl8(Shl8(w)) == Word(0);
    TopBitsZero(8);
  }

  // ---------- the shift register ----------

  function Feedback(c: Word): Word { if TopBit(c) then Word(0x1021) else Word(0) }

  function BitStep(c: Word): Word { Xor(Shl(c), Feedback(c)) }

  function BitSteps(c: Word, n: nat): Word
    decreases n
  {
    if n == 0 then c else BitSteps(BitStep(c), n - 1)
  }

  lemma XorShuffle(a: Word, b: Word, c: Word, d: Word)
    ensures Xor(Xor(a, b), Xor(c, d)) == Xor(Xor(a, c), Xor(b, d))
  {
  }

  lemma ShlLinear(a: Word, b: Word)
    ensures Shl(Xor(a, b)) == Xor(Shl(a), Shl(b))
  {
  }

  lemma FeedbackLinear(a: Word, b: Word)
    ensures Feedback(Xor(a, b)) == Xor(Feedback(a), Feedback(b))
  {
    TopBitXor(a, b);
    hide TopBit;
  }

  lemma StepLinear(a: Word, b: Word)
    ensures BitStep(Xor(a, b)) == Xor(BitStep(a), BitStep(b))
  {
    FeedbackLinear(a, b);
    ShlLinear(a, b);
    XorShuffle(Shl(a), Shl(b), Feedback(a), Feedback(b));
  }

  lemma {:induction false} StepsLinear(a: Word, b: Word, n: nat)
    ensures BitSteps(Xor(a, b), n) == Xor(BitSteps(a, n), BitSteps(b, n))
    decreases n
  {
    if n > 0 {
      StepLinear(a, b);
      StepsLinear(BitStep(a), BitStep(b), n - 1);
    }
  }

  lemma ShlBits(c: Word)
    ensures WordBits(Shl(c)) == WordBits(c)[1..] + [false]
  {
    hide TopBits, TopBit, Shl;
    TopBitsSplit(c, 16, 1);
    ShlsAll(c);
    TopBitsZero(1);
    TopBitsCons(c, 16);
    DropFirst(WordBits(c), TopBit(c), WordBits(Shl(c)));
  }

  lemma DropFirst(w: seq<bool>, t: bool, u: seq<bool>)
    requires w != [] && w + [false] == [t] + u
    ensures u == w[1..] + [false]
  {
    assert u == ([t] + u)[1..] == (w + [false])[1..];
  }

  lemma TopBitsCons(c: Word, n: nat)
    ensures TopBits(c, n + 1) == [TopBit(c)] + TopBits(Shl(c), n)
  {
  }

  lemma FeedbackBits(c: Word)
    ensures WordBits(Feedback(c)) == if TopBit(c) then GENERATOR[1..] else Zeros(16)
  {
    TopBitsZero(16);
    GeneratorBits();
  }

  lemma GeneratorBits()
    ensures WordBits(Word(0x1021)) == GENERATOR[1..]
  {
    TopFour(Word(0x1021), 12, [false, false, false, true]);
    TopFour(Word(0x0210), 8, [false, false, false, false]);
    TopFour(Word(0x2100), 4, [false, false, true, false]);
    TopFour(Word(0x1000), 0, [false, false, false, true]);
    assert TopBits(Word(0), 0) == [];
  }

  lemma TopFour(c: Word, n: nat, b: seq<bool>)
    requires b == [TopBit(c), TopBit(Shl(c)), TopBit(Shl(Shl(c))), TopBit(Shl(Shl(Shl(c))))]
    ensures TopBits(c, n + 4) == b + TopBits(Word(c.v << 4), n)
  {
    ShlFour(c);
    hide TopBit, Shl, TopBits;
    var d := Shl(Shl(c));
    TopBitsCons(c, n + 3);
    TopBitsCons(Shl(c), n + 2);
    TopBitsCons(d, n + 1);
    TopBitsCons(Shl(d), n);
  }

  lemma ShlFour(c: Word)
    ensures Shl(Shl(Shl(Shl(c)))) == Word(c.v << 4)
  {
  }

  /** One register step is one line of the long division. */
  lemma StepIsDivideLine(c: Word)
    ensures WordBits(BitStep(c)) == DivideLine(WordBits(c) + [false])
  {
    hide TopBits, TopBit, Shl, Feedback, Xor;
    ShlBits(c);
    FeedbackBits(c);
    TopBitsXor(Shl(c), Feedback(c), 16);
    TopBitsCons(c, 15);
    DivideLineIsSum(WordBits(c), if TopBit(c) then GENERATOR[1..] else Zeros(16));
  }

  lemma DivideLineIsSum(w: seq<bool>, f: seq<bool>)
    requires |w| == 16 && f == if w[0] then GENERATOR[1..] else Zeros(16)
    ensures Add(w[1..] + [false], f) == DivideLine(w + [false])
  {
  }

  lemma {:induction false} StepsAreRemainder(c: Word, n: nat)
    ensures WordBits(BitSteps(c, n)) == Remainder(WordBits(c) + Zeros(n))
    decreases n
  {
    if n == 0 {
      assert WordBits(c) + Zeros(0) == WordBits(c);
    } else {
      StepsAreRemainder(BitStep(c), n - 1);
      StepIsDivideLine(c);
      RemainderZero(WordBits(c), n);
    }
  }

  lemma RemainderZero(w: seq<bool>, n: nat)
    requires |w| == 16 && n > 0
    ensures Remainder(w + Zeros(n)) == Remainder(DivideLine(w + [false]) + Zeros(n - 1))
  {
    assert w + Zeros(n) == w + [false] + Zeros(n - 1);
    RemainderAppend(w + [false], Zeros(n - 1));
    assert Remainder(w + [false]) == DivideLine(w + [false]);
  }

  // ---------- the 256 entries ----------

  lemma StepsEight(c: Word)
    ensures BitSteps(c, 8) == BitStep(BitStep(BitStep(BitStep(BitStep(BitStep(BitStep(BitStep(c))))))))
  {
    hide BitStep;
    var d := BitStep(BitStep(BitStep(BitStep(c))));
    assert BitSteps(c, 8) == BitSteps(d, 4);
  }

  /** Row 0 holds the remainders of the low nibbles. */
  lemma TableRow(n: Word)
    requires n.v < 0x10
    ensures |CRC16TAB[0]| == 16 && Word(CRC16TAB[0][Nibble(n)]) == BitSteps(Word(n.v << 8), 8)
  {
    StepsEight(Word(n.v << 8));
    if n.v == 0 {} else if n.v == 1 {} else if n.v == 2 {} else if n.v == 3 {} else if n.v == 4 {}
    else if n.v == 5 {} else if n.v == 6 {} else if n.v == 7 {} else if n.v == 8 {} else if n.v == 9 {}
    else if n.v == 10 {} else if n.v == 11 {} else if n.v == 12 {} else if n.v == 13 {} else if n.v == 14 {}
    else { assert n.v == 15; }
  }

  /** Column 0 holds the remainders of the high nibbles. */
  lemma TableColumn(n: Word)
    requires n.v < 0x10
    ensures |CRC16TAB[Nibble(n)]| == 16 && Word(CRC16TAB[Nibble(n)][0]) == BitSteps(Word(n.v << 12), 8)
  {
    StepsEight(Word(n.v << 12));
    if n.v == 0 {} else if n.v == 1 {} else if n.v == 2 {} else if n.v == 3 {} else if n.v == 4 {}
    else if n.v == 5 {} else if n.v == 6 {} else if n.v == 7 {} else if n.v == 8 {} else if n.v == 9 {}
    else if n.v == 10 {} else if n.v == 11 {} else if n.v == 12 {} else if n.v == 13 {} else if n.v == 14 {}
    else { assert n.v == 15; }
  }

  /** Every entry of a row is the sum of the row's first entry and the one above it in row 0. */
  ghost predicate RowFits(row: seq<bv16>) {
    |row| == |ROW0| == 16 && forall j | 0 <= j < 16 :: row[j] == row[0] ^ ROW0[j]
  }

  lemma Row0() ensures RowFits(ROW0) {}
  lemma Row1() ensures RowFits(ROW1) {}
  lemma Row2() ensures RowFits(ROW2) {}
  lemma Row3() ensures RowFits(ROW3) {}
  lemma Row4() ensures RowFits(ROW4) {}
  lemma Row5() ensures RowFits(ROW5) {}
  lemma Row6() ensures RowFits(ROW6) {}
  lemma Row7() ensures RowFits(ROW7) {}
  lemma Row8() ensures RowFits(ROW8) {}
  lemma Row9() ensures RowFits(ROW9) {}
  lemma Row10() ensures RowFits(ROW10) {}
  lemma Row11() ensures RowFits(ROW11) {}
  lemma Row12() ensures RowFits(ROW12) {}
  lemma Row13() ensures RowFits(ROW13) {}
  lemma Row14() ensures RowFits(ROW14) {}
  lemma Row15() ensures RowFits(ROW15) {}

  lemma Rows(h: nat)
    requires h < 16
    ensures RowFits(CRC16TAB[h])
  {
    hide RowFits;
    match h
    case 0 => Row0();
    case 1 => Row1();
    case 2 => Row2();
    case 3 => Row3();
    case 4 => Row4();
    case 5 => Row5();
    case 6 => Row6();
    case 7 => Row7();
    case 8 => Row8();
    case 9 => Row9();
    case 10 => Row10();
    case 11 => Row11();
    case 12 => Row12();
    case 13 => Row13();
    case 14 => Row14();
    case 15 => Row15();
  }

  function Nibble(n: Word): (k: nat)
    requires n.v < 0x10
    ensures k < 16
  {
    n.v as int
  }

  function At(h: nat, l: nat): Word
    requires h < 16 && l < 16
  {
    Rows(h);
    Word(CRC16TAB[h][l])
  }

  lemma AtIsSum(h: nat, l: nat)
    requires h < 16 && l < 16
    ensures At(h, l) == Xor(At(h, 0), At(0, l))
  {
    Rows(h);
  }

  function High(x: Byte): (h: Word)
    ensures h.v < 0x10
  {
    Word(Widen(x).v >> 4)
  }

  function Low(x: Byte): (l: Word)
    ensures l.v < 0x10
  {
    Word(Widen(x).v & 0xF)
  }

  /** crc16tab[x]: row x / 16, column x % 16. */
  function Entry(x: Byte): Word {
    At(Nibble(High(x)), Nibble(Low(x)))
  }

  /** Each table entry is the remainder of its index: eight bit steps at once. */
  lemma TableEntry(x: Byte)
    ensures Entry(x) == BitSteps(Shl8(Widen(x)), 8)
  {
    AtIsSum(Nibble(High(x)), Nibble(Low(x)));
    TableColumn(High(x));
    TableRow(Low(x));
    JoinNibbles(x);
    StepsLinear(Word(High(x).v << 12), Word(Low(x).v << 8), 8);
  }

  /** Only the indices 0 and 0x89 have an entry without a high byte. */
  lemma ShortEntry(e: Byte)
    requires HighByte(Entry(e)) == Byte(0)
    ensures e == Byte(0) || e == Byte(0x89)
  {
    TableEntry(e);
    StepsEight(Shl8(Widen(e)));
    hide Entry, BitSteps;
    ShortRemainder(e);
  }

  lemma ShortRemainder(e: Byte)
    requires HighByte(BitStep(BitStep(BitStep(BitStep(BitStep(BitStep(BitStep(BitStep(Shl8(Widen(e))))))))))) == Byte(0)
    ensures e == Byte(0) || e == Byte(0x89)
  {
  }

  lemma JoinNibbles(x: Byte)
    ensures Xor(Word(High(x).v << 12), Word(Low(x).v << 8)) == Shl8(Widen(x))
  {
  }

  // ---------- the loop of crc16_get ----------

  /** ((crc >> 8) ^ b) & 0x00FF */
  function IndexOf(c: Word, b: Byte): Byte {
    Byte((((c.v >> 8) ^ Widen(b).v) & 0xFF) as bv8)
  }

  /** (crc << 8) ^ crc16tab[((crc >> 8) ^ b) & 0x00FF] */
  function ByteIn(c: Word, b: Byte): Word {
    Xor(Shl8(c), Entry(IndexOf(c, b)))
  }

  function LowByte(c: Word): Byte { Byte((c.v & 0xFF) as bv8) }

  function HighByte(c: Word): Byte { Byte((c.v >> 8) as bv8) }

  lemma JoinBytes(c: Word, b: Byte)
    ensures Xor(c, Shl8(Widen(b))) == Xor(Shl8(Widen(IndexOf(c, b))), Widen(LowByte(c)))
    ensures Shl8(Widen(LowByte(c))) == Shl8(c)
  {
  }

  lemma StepsOfLowByte(b: Byte)
    ensures BitSteps(Widen(b), 8) == Shl8(Widen(b))
  {
    StepsEight(Widen(b));
  }

  lemma XorCommutes(a: Word, b: Word)
    ensures Xor(a, b) == Xor(b, a)
  {
  }

  lemma ByteInIsSteps(c: Word, b: Byte)
    ensures ByteIn(c, b) == BitSteps(Xor(c, Shl8(Widen(b))), 8)
  {
    JoinBytes(c, b);
    StepsLinear(Shl8(Widen(IndexOf(c, b))), Widen(LowByte(c)), 8);
    TableEntry(IndexOf(c, b));
    StepsOfLowByte(LowByte(c));
    XorCommutes(Shl8(c), Entry(IndexOf(c, b)));
  }

  lemma ByteInIsDivision(c: Word, b: Byte, m: seq<bool>)
    requires WordBits(c) == CheckBits(m)
    ensures WordBits(ByteIn(c, b)) == CheckBits(m + ByteBits(b))
  {
    hide *;
    ByteInIsSteps(c, b);
    StepsAreRemainder(Xor(c, Shl8(Widen(b))), 8);
    WordBitsXor(c, Shl8(Widen(b)));
    ByteBitsPadded(b);
    AddPaddedByte(WordBits(c), ByteBits(b));
    CheckBitsAppend(m, ByteBits(b));
  }

  lemma WordBitsXor(a: Word, b: Word)
    ensures WordBits(Xor(a, b)) == Add(WordBits(a), WordBits(b))
  {
    TopBitsXor(a, b, 16);
  }

  lemma AddPaddedByte(w: seq<bool>, b: seq<bool>)
    requires |w| == 16 && |b| == 8
    ensures Add(w, b + Zeros(8)) == Add(w, b)
  {
  }

  /** The value the loop has computed after the bytes of buf. */
  function Crc(buf: seq<Byte>): Word
    decreases |buf|
  {
    if buf == [] then Word(0) else ByteIn(Crc(buf[..|buf| - 1]), buf[|buf| - 1])
  }

  /** For every buffer, that value is the remainder of the polynomial division. */
  lemma {:induction false} CrcIsDivision(buf: seq<Byte>)
    ensures WordBits(Crc(buf)) == CheckBits(MessageBits(buf))
    decreases |buf|
  {
    if buf == [] {
      TopBitsZero(16);
      assert MessageBits(buf) + Zeros(16) == Zeros(16);
    } else {
      var s := buf[..|buf| - 1];
      CrcIsDivision(s);
      ByteInIsDivision(Crc(s), buf[|buf| - 1], MessageBits(s));
    }
  }

  method Crc16Get(buf: array<Byte>, len: nat) returns (crc: Word)
    requires len <= buf.Length
    ensures crc == Crc(buf[..len])
    ensures WordBits(crc) == CheckBits(MessageBits(buf[..len]))
  {
    hide ByteIn, CheckBits, MessageBits, WordBits;
    crc := Word(0);
    for counter := 0 to len
      invariant crc == Crc(buf[..counter])
    {
      assert buf[..counter + 1][..counter] == buf[..counter];
      crc := ByteIn(crc, buf[counter]);
    }
    CrcIsDivision(buf[..len]);
  }

  // ---------- corruptions the CRC notices ----------

  lemma {:induction false} MessageBitsAt(buf: seq<Byte>, i: nat, j: nat)
    requires i < |buf| && j < 8
    ensures MessageBits(buf)[8 * i + j] == ByteBits(buf[i])[j]
    decreases |buf|
  {
    if i < |buf| - 1 {
      MessageBitsAt(buf[..|buf| - 1], i, j);
    }
  }

  lemma {:induction false} TopBitsOfZero(c: Word, n: nat)
    requires TopBits(c, n) == Zeros(n) && Shls(c, n) == Word(0)
    ensures c == Word(0)
    decreases n
  {
    if n > 0 {
      assert TopBits(c, n)[0] == TopBit(c) && TopBits(c, n)[1..] == TopBits(Shl(c), n - 1);
      assert Zeros(n)[1..] == Zeros(n - 1);
      TopBitsOfZero(Shl(c), n - 1);
      ShlOfZero(c);
    }
  }

  lemma ShlOfZero(c: Word)
    requires Shl(c) == Word(0) && !TopBit(c)
    ensures c == Word(0)
  {
  }

  lemma Shl8Xor(a: Byte, b: Byte)
    ensures Xor(Shl8(Widen(a)), Shl8(Widen(b))) == Word(0) ==> a == b
    ensures Shl8(Xor(Shl8(Widen(a)), Shl8(Widen(b)))) == Word(0)
  {
  }

  lemma ByteBitsInjective(a: Byte, b: Byte)
    requires ByteBits(a) == ByteBits(b)
    ensures a == b
  {
    var x, y := Shl8(Widen(a)), Shl8(Widen(b));
    var d := Xor(x, y);
    TopBitsXor(x, y, 8);
    AddSelf(ByteBits(a));
    Shl8Xor(a, b);
    ShlsEight(d);
    TopBitsOfZero(d, 8);
  }

  lemma MessageBitsInjective(a: seq<Byte>, b: seq<Byte>)
    requires |a| == |b| && MessageBits(a) == MessageBits(b)
    ensures a == b
  {
    hide *;
    forall i | 0 <= i < |a| ensures a[i] == b[i] {
      forall j | 0 <= j < 8 ensures ByteBits(a[i])[j] == ByteBits(b[i])[j] {
        MessageBitsAt(a, i, j);
        MessageBitsAt(b, i, j);
      }
      assert ByteBits(a[i]) == ByteBits(b[i]);
      ByteBitsInjective(a[i], b[i]);
    }
  }

  lemma MessageBitsLocal(a: seq<Byte>, b: seq<Byte>, k: nat)
    requires |a| == |b| && k < 8 * |a| && a[k / 8] == b[k / 8]
    ensures MessageBits(a)[k] == MessageBits(b)[k]
  {
    var i, j := k / 8, k % 8;
    assert k == 8 * i + j;
    MessageBitsAt(a, i, j);
    MessageBitsAt(b, i, j);
    hide MessageBits, ByteBits;
  }

  /** Buffers of one length that differ at most in two adjacent bytes are equal when their CRCs are. */
  lemma TwoByteBurst(a: seq<Byte>, b: seq<Byte>, p: nat)
    requires |a| == |b|
    requires forall k | 0 <= k < |a| && k != p && k != p + 1 :: a[k] == b[k]
    ensures Crc(a) == Crc(b) <==> a == b
  {
    hide *;
    if Crc(a) == Crc(b) {
      CrcIsDivision(a);
      CrcIsDivision(b);
      forall k | 0 <= k < 8 * |a| && !(8 * p <= k < 8 * p + 16)
        ensures MessageBits(a)[k] == MessageBits(b)[k]
      {
        MessageBitsLocal(a, b, k);
      }
      BurstInjective(MessageBits(a), MessageBits(b), 8 * p);
      MessageBitsInjective(a, b);
    }
  }
}
