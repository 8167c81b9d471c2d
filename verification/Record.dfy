/** The stored form of a data block (util/storage.c:145-149): the data, then its CRC with the low
    byte first, and exactly which damage to it the check in _load_file (96-105) lets through. */
module Record {
  import opened Division
  import opened Crc16

  function CrcBytes(c: Word): (r: seq<Byte>)
    ensures |r| == 2
  {
    [LowByte(c), HighByte(c)]
  }

  function Encode(data: seq<Byte>): (r: seq<Byte>)
    ensures |r| == |data| + 2
  {
    data + CrcBytes(Crc(data))
  }

  /** The check of _load_file on |r| - 2 data bytes and two stored CRC bytes. */
  predicate Accepts(r: seq<Byte>)
    requires |r| >= 2
  {
    r[|r| - 2..] == CrcBytes(Crc(r[..|r| - 2]))
  }

  /** A record is accepted exactly when it is the stored form of its own data. */
  lemma AcceptsIffEncoded(r: seq<Byte>)
    requires |r| >= 2
    ensures Accepts(r) <==> r == Encode(r[..|r| - 2])
  {
    assert r == r[..|r| - 2] + r[|r| - 2..];
  }

  lemma CrcBytesInjective(a: Word, b: Word)
    requires CrcBytes(a) == CrcBytes(b)
    ensures a == b
  {
    assert CrcBytes(a)[0] == CrcBytes(b)[0] && CrcBytes(a)[1] == CrcBytes(b)[1];
    JoinWord(a);
    JoinWord(b);
  }

  lemma JoinWord(c: Word)
    ensures c == Xor(Shl8(Widen(HighByte(c))), Widen(LowByte(c)))
  {
  }

  // ---------- damage within two adjacent bytes ----------

  /** Changing the last data byte by e changes the CRC by table entry e. */
  lemma CrcOfLastByte(s: seq<Byte>, a: Byte, b: Byte)
    ensures Crc(s + [b]) == Xor(Crc(s + [a]), Entry(ByteXor(a, b)))
  {
    assert (s + [a])[..|s|] == s && (s + [b])[..|s|] == s;
    hide *;
    CrcStep(s, a);
    CrcStep(s, b);
    ByteInIsSteps(Crc(s), a);
    ByteInIsSteps(Crc(s), b);
    TableEntry(ByteXor(a, b));
    ShiftSum(Crc(s), a, b);
    StepsLinear(Xor(Crc(s), Shl8(Widen(a))), Shl8(Widen(ByteXor(a, b))), 8);
  }

  lemma CrcStep(s: seq<Byte>, b: Byte)
    ensures Crc(s + [b]) == ByteIn(Crc(s), b)
  {
    assert (s + [b])[..|s|] == s;
  }

  function ByteXor(a: Byte, b: Byte): Byte { Byte(a.v ^ b.v) }

  lemma ShiftSum(c: Word, a: Byte, b: Byte)
    ensures Xor(c, Shl8(Widen(b))) == Xor(Xor(c, Shl8(Widen(a))), Shl8(Widen(ByteXor(a, b))))
  {
    Shl8Linear(a, b);
    hide *;
    XorMiddle(c, Shl8(Widen(a)), Shl8(Widen(b)));
  }

  lemma Shl8Linear(a: Byte, b: Byte)
    ensures Shl8(Widen(ByteXor(a, b))) == Xor(Shl8(Widen(a)), Shl8(Widen(b)))
  {
  }

  lemma XorMiddle(c: Word, x: Word, y: Word)
    ensures Xor(c, y) == Xor(Xor(c, x), Xor(x, y))
  {
  }

  lemma EntryOf89()
    ensures Entry(Byte(0x89)) == Word(0xA1)
    ensures Entry(Byte(0)) == Word(0)
  {
    assert CRC16TAB[8][9] == 0x00a1 && CRC16TAB[0][0] == 0;
  }

  lemma XorHigh(c: Word, e: Word)
    ensures HighByte(Xor(c, e)) == ByteXor(HighByte(c), HighByte(e))
  {
  }

  lemma XorLow(c: Word, e: Word)
    ensures LowByte(Xor(c, e)) == ByteXor(LowByte(c), LowByte(e))
  {
  }

  lemma XorIdentity(a: Byte, b: Byte)
    ensures ByteXor(a, b) == a ==> b == Byte(0)
    ensures ByteXor(a, Byte(0)) == a
  {
  }

  lemma ByteXorZero(a: Byte, b: Byte)
    ensures ByteXor(a, b) == Byte(0) ==> a == b
    ensures ByteXor(a, b) == Byte(0x89) <==> b == ByteXor(a, Byte(0x89))
  {
  }

  /** The one pair of adjacent bytes the check cannot see: the last data byte changed by 0x89
      together with the low CRC byte, stored right behind it, changed by 0xA1. */
  ghost predicate Blind(data: seq<Byte>, r: seq<Byte>) {
    var n := |data|;
    && |r| == n + 2 && n > 0
    && r[..n - 1] == data[..n - 1]
    && r[n - 1] == ByteXor(data[n - 1], Byte(0x89))
    && r[n] == ByteXor(LowByte(Crc(data)), Byte(0xA1))
    && r[n + 1] == HighByte(Crc(data))
  }

  /** Changing the last data byte by d keeps the high CRC byte only for d = 0 and d = 0x89. */
  lemma HighByteKept(c: Word, d: Byte)
    ensures HighByte(Xor(c, Entry(d))) == HighByte(c) <==> d == Byte(0) || d == Byte(0x89)
    ensures LowByte(Xor(c, Entry(Byte(0)))) == LowByte(c)
    ensures LowByte(Xor(c, Entry(Byte(0x89)))) == ByteXor(LowByte(c), Byte(0xA1))
  {
    EntryOf89();
    BytesOfA1();
    hide *;
    XorHigh(c, Entry(d));
    XorIdentity(HighByte(c), HighByte(Entry(d)));
    XorIdentity(LowByte(c), Byte(0));
    XorLow(c, Word(0));
    XorLow(c, Word(0xA1));
    if HighByte(Entry(d)) == Byte(0) {
      ShortEntry(d);
    }
  }

  lemma AcceptsTail(s: seq<Byte>, b: Byte, x: Byte, y: Byte)
    ensures Accepts(s + [b, x, y]) <==> [x, y] == CrcBytes(Crc(s + [b]))
  {
    var r := s + [b, x, y];
    assert r[|r| - 2..] == [x, y] && r[..|r| - 2] == s + [b];
  }

  /** The blind spot in terms of the two changed bytes. */
  lemma Straddle(s: seq<Byte>, a: Byte, b: Byte, x: Byte)
    ensures Accepts(s + [b, x, HighByte(Crc(s + [a]))])
       <==> (b == a && x == LowByte(Crc(s + [a])))
            || (b == ByteXor(a, Byte(0x89)) && x == ByteXor(LowByte(Crc(s + [a])), Byte(0xA1)))
  {
    var c, d := Crc(s + [a]), ByteXor(a, b);
    ByteXorZero(a, b);
    AcceptsTail(s, b, x, HighByte(c));
    CrcOfLastByte(s, a, b);
    EntryOf89();
    hide Crc, Xor, LowByte, HighByte, Entry, ByteXor;
    HighByteKept(c, d);
    assert CrcBytes(Xor(c, Entry(d))) == [LowByte(Xor(c, Entry(d))), HighByte(Xor(c, Entry(d)))];
    if b == a {
      XorSelf(a);
    }
  }

  lemma XorSelf(a: Byte)
    ensures ByteXor(a, a) == Byte(0)
  {
  }

  lemma BytesOfA1()
    ensures LowByte(Word(0xA1)) == Byte(0xA1) && HighByte(Word(0xA1)) == Byte(0)
    ensures LowByte(Word(0)) == Byte(0) && HighByte(Word(0)) == Byte(0)
  {
  }

  /** Records that differ from Encode(data) at most at positions p and p + 1. */
  ghost predicate DamagedAt(data: seq<Byte>, r: seq<Byte>, p: nat) {
    && |r| == |data| + 2
    && forall k | 0 <= k < |r| && k != p && k != p + 1 :: r[k] == Encode(data)[k]
  }

  lemma EqualSlice(r: seq<Byte>, e: seq<Byte>, lo: nat, hi: nat)
    requires lo <= hi <= |r| == |e|
    requires forall k | lo <= k < hi :: r[k] == e[k]
    ensures r[lo..hi] == e[lo..hi]
  {
  }

  lemma EncodeOf(data: seq<Byte>)
    ensures Encode(data)[..|data|] == data && Encode(data)[|data|..] == CrcBytes(Crc(data))
  {
  }

  lemma DamageInData(data: seq<Byte>, r: seq<Byte>, p: nat)
    requires DamagedAt(data, r, p) && p + 1 < |data|
    ensures Accepts(r) <==> r == Encode(data)
  {
    var n, e := |data|, Encode(data);
    EncodeOf(data);
    EqualSlice(r, e, n, n + 2);
    assert r[n..] == e[n..];
    hide Crc, CrcBytes, Encode;
    forall k | 0 <= k < n && k != p && k != p + 1 ensures r[..n][k] == data[k] {
      assert r[k] == e[k] == e[..n][k];
    }
    TwoByteBurst(r[..n], data, p);
    assert r == r[..n] + r[n..] && e == e[..n] + e[n..];
    if Accepts(r) {
      CrcBytesInjective(Crc(r[..n]), Crc(data));
    }
  }

  lemma AcrossForm(data: seq<Byte>, r: seq<Byte>, p: nat)
    requires DamagedAt(data, r, p) && p + 1 == |data|
    ensures r[..p] == data[..p] && r[p + 2] == HighByte(Crc(data))
    ensures r == data[..p] + [r[p], r[p + 1], HighByte(Crc(data))]
    ensures Encode(data) == data[..p] + [data[p], LowByte(Crc(data)), HighByte(Crc(data))]
  {
    hide Crc, LowByte, HighByte;
    EqualSlice(r, Encode(data), 0, p);
    assert r[p + 2] == Encode(data)[p + 2];
    Tail(r, p);
    Tail(Encode(data), p);
  }

  lemma Tail(r: seq<Byte>, p: nat)
    requires |r| == p + 3
    ensures r == r[..p] + [r[p], r[p + 1], r[p + 2]]
  {
  }

  lemma DamageAcross(data: seq<Byte>, r: seq<Byte>, p: nat)
    requires DamagedAt(data, r, p) && p + 1 == |data|
    ensures Accepts(r) <==> r == Encode(data) || Blind(data, r)
  {
    hide Crc, Xor, LowByte, HighByte, Accepts, Encode, DamagedAt;
    AcrossForm(data, r, p);
    assert data == data[..p] + [data[p]];
    Straddle(data[..p], data[p], r[p], r[p + 1]);
  }

  /** A record damaged at most in two adjacent bytes, wherever they are, is accepted exactly when
      it is undamaged or has the one blind spot. */
  lemma TwoByteDamage(data: seq<Byte>, r: seq<Byte>, p: nat)
    requires |r| == |data| + 2
    requires forall k | 0 <= k < |r| && k != p && k != p + 1 :: r[k] == Encode(data)[k]
    ensures Accepts(r) <==> r == Encode(data) || Blind(data, r)
  {
    var n := |data|;
    assert DamagedAt(data, r, p);
    if p + 1 == n {
      DamageAcross(data, r, p);
    } else {
      if p < n {
        assert r[n] == Encode(data)[n] == LowByte(Crc(data));
        DamageInData(data, r, p);
      } else {
        assert r[..n] == Encode(data)[..n] == data;
        AcceptsIffEncoded(r);
      }
      NotBlind(data, r);
    }
  }

  lemma NotBlind(data: seq<Byte>, r: seq<Byte>)
    requires |r| == |data| + 2 && (r[..|data|] == data || r[|data|] == LowByte(Crc(data)))
    ensures !Blind(data, r)
  {
    if Blind(data, r) {
      var n := |data|;
      XorIdentity(data[n - 1], Byte(0x89));
      XorIdentity(LowByte(Crc(data)), Byte(0xA1));
    }
  }

  // ---------- damage of odd weight ----------

  lemma MessageBitsAppend(s: seq<Byte>, b: Byte)
    ensures MessageBits(s + [b]) == MessageBits(s) + ByteBits(b)
  {
    assert (s + [b])[..|s|] == s;
  }

  lemma TopBitsSmall(b: Byte)
    ensures TopBits(Widen(b), 8) == Zeros(8)
  {
    TopFour(Widen(b), 4, [false, false, false, false]);
    TopFour(Word(Widen(b).v << 4), 0, [false, false, false, false]);
  }

  /** A word holds as many ones as its two bytes together, up to parity. */
  lemma OddWord(c: Word)
    ensures Odd(WordBits(c)) == (Odd(ByteBits(LowByte(c))) != Odd(ByteBits(HighByte(c))))
  {
    var h, l := HighByte(c), LowByte(c);
    JoinWord(c);
    ByteBitsPadded(h);
    hide *;
    WordBitsXor(Shl8(Widen(h)), Widen(l));
    OddAdd(WordBits(Shl8(Widen(h))), WordBits(Widen(l)));
    OddAppend(ByteBits(h), Zeros(8));
    OddZeros(8);
    LowHalf(l);
    OddAppend(Zeros(8), ByteBits(l));
  }

  lemma LowHalf(l: Byte)
    ensures WordBits(Widen(l)) == Zeros(8) + ByteBits(l)
  {
    TopBitsSplit(Widen(l), 8, 8);
    TopBitsSmall(l);
    ShlsEight(Widen(l));
  }

  lemma EncodeEven(data: seq<Byte>)
    ensures !Odd(MessageBits(Encode(data)))
  {
    var c := Crc(data);
    var l, h := LowByte(c), HighByte(c);
    assert Encode(data) == data + [l] + [h];
    hide *;
    MessageBitsAppend(data, l);
    MessageBitsAppend(data + [l], h);
    OddAppend(MessageBits(data), ByteBits(l));
    OddAppend(MessageBits(data) + ByteBits(l), ByteBits(h));
    OddWord(c);
    CrcIsDivision(data);
    CodewordEven(MessageBits(data));
    OddAppend(MessageBits(data), WordBits(c));
  }

  /** Damage that flips an odd number of bits, anywhere in data and CRC bytes, is never accepted. */
  lemma OddDamage(data: seq<Byte>, r: seq<Byte>)
    requires |r| == |data| + 2
    requires Odd(Add(MessageBits(r), MessageBits(Encode(data))))
    ensures !Accepts(r)
  {
    hide *;
    EncodeEven(data);
    OddAdd(MessageBits(r), MessageBits(Encode(data)));
    if Accepts(r) {
      AcceptsIffEncoded(r);
      EncodeEven(r[..|r| - 2]);
    }
  }
}
