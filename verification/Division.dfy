/** Polynomials over GF(2) as bit strings, most significant coefficient first, and their long
    division by x^16 + x^12 + x^5 + 1 (the generator of ITU-T V.41, section 2).

    This is the reference that util/crc16.c is proved against, with the three facts that say
    which corruptions a 16-bit remainder notices.
*/
module Division {

  /** Coefficients of x^16 + x^12 + x^5 + 1, from x^16 down to 1. */
  const GENERATOR: seq<bool> := [
    true, false, false, false, true, false, false, false, false,
    false, false, true, false, false, false, false, true
  ]

  function Zeros(n: nat): (z: seq<bool>)
    ensures |z| == n && forall k | 0 <= k < n :: !z[k]
  {
    if n == 0 then [] else Zeros(n - 1) + [false]
  }

  /** s with w added, modulo 2, to its first |w| positions. */
  function Add(s: seq<bool>, w: seq<bool>): (r: seq<bool>)
    requires |w| <= |s|
    ensures |r| == |s|
    ensures forall k | 0 <= k < |s| :: r[k] == (if k < |w| then s[k] != w[k] else s[k])
  {
    if w == [] then s else [s[0] != w[0]] + Add(s[1..], w[1..])
  }

  /** One line of the long division: clear the leading coefficient and drop it. */
  function DivideLine(s: seq<bool>): (r: seq<bool>)
    requires |s| > 16
    ensures |r| == |s| - 1
    ensures forall k | 0 <= k < |r| ::
      r[k] == (if s[0] && k < 16 then s[k + 1] != GENERATOR[k + 1] else s[k + 1])
  {
    (if s[0] then Add(s, GENERATOR) else s)[1..]
  }

  function Remainder(s: seq<bool>): (r: seq<bool>)
    requires |s| >= 16
    ensures |r| == 16
    decreases |s|
  {
    if |s| == 16 then s else Remainder(DivideLine(s))
  }

  /** The check bits of a message: the remainder of message * x^16. */
  function CheckBits(m: seq<bool>): (r: seq<bool>)
    ensures |r| == 16
  {
    Remainder(m + Zeros(16))
  }

  /** Whether the number of ones is odd. */
  function Odd(s: seq<bool>): bool {
    if s == [] then false else s[0] != Odd(s[1..])
  }

  // ---------- algebra of the remainder ----------

  lemma {:induction false} RemainderLinear(s: seq<bool>, t: seq<bool>)
    requires |s| == |t| >= 16
    ensures Remainder(Add(s, t)) == Add(Remainder(s), Remainder(t))
    decreases |s|
  {
    if |s| > 16 {
      assert DivideLine(Add(s, t)) == Add(DivideLine(s), DivideLine(t));
      RemainderLinear(DivideLine(s), DivideLine(t));
    }
  }

  lemma {:induction false} RemainderAppend(s: seq<bool>, t: seq<bool>)
    requires |s| >= 16
    ensures Remainder(s + t) == Remainder(Remainder(s) + t)
    decreases |s|
  {
    if |s| > 16 {
      assert DivideLine(s + t) == DivideLine(s) + t;
      RemainderAppend(DivideLine(s), t);
    }
  }

  lemma {:induction false} RemainderLeadingZeros(n: nat, s: seq<bool>)
    requires |s| >= 16
    ensures Remainder(Zeros(n) + s) == Remainder(s)
    decreases n
  {
    if n == 0 {
      assert Zeros(0) + s == s;
    } else {
      assert DivideLine(Zeros(n) + s) == Zeros(n - 1) + s;
      RemainderLeadingZeros(n - 1, s);
    }
  }

  /** The constant term of the generator is 1, so no line turns a nonzero remainder into zero. */
  lemma LineOfZero(r: seq<bool>)
    requires |r| == 16 && DivideLine(r + [false]) == Zeros(16)
    ensures r == Zeros(16)
  {
    var line := DivideLine(r + [false]);
    assert GENERATOR[16];
    assert line[15] == r[0];
    forall k | 1 <= k < 16 ensures !r[k] {
      assert line[k - 1] == (r + [false])[k];
    }
  }

  /** Hence a remainder of zero survives removing trailing zeros. */
  lemma {:induction false} RemainderTrailingZeros(s: seq<bool>, n: nat)
    requires |s| >= 16
    requires Remainder(s + Zeros(n)) == Zeros(16)
    ensures Remainder(s) == Zeros(16)
    decreases n
  {
    if n == 0 {
      assert s + Zeros(0) == s;
    } else {
      var u := s + Zeros(n - 1);
      assert s + Zeros(n) == u + [false];
      RemainderAppend(u, [false]);
      assert Remainder(Remainder(u) + [false]) == DivideLine(Remainder(u) + [false]);
      LineOfZero(Remainder(u));
      RemainderTrailingZeros(s, n - 1);
    }
  }

  lemma AddShifted(m: seq<bool>, b: seq<bool>)
    requires |b| <= 16
    ensures (m + b) + Zeros(16) == Add(m + Zeros(16) + Zeros(|b|), Zeros(|m|) + (b + Zeros(16)))
  {
    hide Zeros, Add;
    var r := Add(m + Zeros(16) + Zeros(|b|), Zeros(|m|) + (b + Zeros(16)));
    var l := (m + b) + Zeros(16);
    forall k | 0 <= k < |l| ensures l[k] == r[k] {
    }
  }

  lemma AddPadded(r: seq<bool>, b: seq<bool>)
    requires |b| <= |r| == 16
    ensures Add(r + Zeros(|b|), b + Zeros(16)) == Add(r, b) + Zeros(|b|)
  {
    hide Zeros, Add;
    var x, y := Add(r + Zeros(|b|), b + Zeros(16)), Add(r, b) + Zeros(|b|);
    forall k | 0 <= k < |x| ensures x[k] == y[k] {
    }
  }

  lemma SumOfEqualRemainders(h: seq<bool>, l: seq<bool>, h': seq<bool>, l': seq<bool>)
    requires |h| == |l| >= 16 && |h'| == |l'| >= 16
    requires Remainder(h) == Remainder(h') && Remainder(l) == Remainder(l')
    ensures Remainder(Add(h, l)) == Remainder(Add(h', l'))
  {
    RemainderLinear(h, l);
    RemainderLinear(h', l');
  }

  /** The register step of a byte-wise implementation: append b to the message. */
  lemma CheckBitsAppend(m: seq<bool>, b: seq<bool>)
    requires |b| <= 16
    ensures CheckBits(m + b) == Remainder(Add(CheckBits(m), b) + Zeros(|b|))
  {
    var n, c, tail := |b|, CheckBits(m), b + Zeros(16);
    AddShifted(m, b);
    AddPadded(c, b);
    RemainderAppend(m + Zeros(16), Zeros(n));
    RemainderLeadingZeros(|m|, tail);
    SumOfEqualRemainders(m + Zeros(16) + Zeros(n), Zeros(|m|) + tail, c + Zeros(n), tail);
  }

  // ---------- what the check bits notice ----------

  lemma AddSelf(s: seq<bool>)
    ensures Add(s, s) == Zeros(|s|)
  {
  }

  lemma AddZeros(a: seq<bool>, b: seq<bool>)
    requires |a| == |b|
    ensures Add(a + Zeros(16), b + Zeros(16)) == Add(a, b) + Zeros(16)
  {
  }

  /** The sum of two messages with equal check bits is a multiple of the generator. */
  lemma EqualCheckBits(a: seq<bool>, b: seq<bool>)
    requires |a| == |b| && CheckBits(a) == CheckBits(b)
    ensures CheckBits(Add(a, b)) == Zeros(16)
  {
    RemainderLinear(a + Zeros(16), b + Zeros(16));
    AddZeros(a, b);
    AddSelf(CheckBits(a));
  }

  /** No nonzero string whose ones lie within 16 positions is a multiple of the generator. */
  lemma ShortMultiple(d: seq<bool>, q: nat)
    requires q <= |d| && CheckBits(d) == Zeros(16)
    requires forall k | 0 <= k < |d| && d[k] :: q - 16 <= k < q
    ensures forall k | 0 <= k < |d| :: !d[k]
  {
    var s, n := Zeros(16) + d[..q], |d| - q;
    hide CheckBits, Remainder, Zeros;
    CheckBitsIs(d);
    RemainderLeadingZeros(16, d + Zeros(16));
    PaddedTail(d, q);
    RemainderTrailingZeros(s, n + 16);
    PaddedHead(d, q);
    RemainderLeadingZeros(q, s[q..]);
    Short(s[q..]);
    forall k | 0 <= k < |d| ensures !d[k] {
      if q - 16 <= k < q {
        LastSixteen(d, q, k);
      }
    }
  }

  lemma CheckBitsIs(d: seq<bool>)
    ensures CheckBits(d) == Remainder(d + Zeros(16))
  {
  }

  lemma Short(r: seq<bool>)
    requires |r| == 16
    ensures Remainder(r) == r
  {
  }

  /** Everything behind the ones is zero. */
  lemma PaddedTail(d: seq<bool>, q: nat)
    requires q <= |d| && forall k | q <= k < |d| :: !d[k]
    ensures Zeros(16) + (d + Zeros(16)) == (Zeros(16) + d[..q]) + Zeros(|d| - q + 16)
  {
    hide Zeros;
    var l, r := Zeros(16) + (d + Zeros(16)), (Zeros(16) + d[..q]) + Zeros(|d| - q + 16);
    forall k | 0 <= k < |l| ensures l[k] == r[k] {
      if 16 <= k < 16 + q {
        assert l[k] == d[k - 16] == r[k];
      } else if 16 + q <= k < 16 + |d| {
        assert l[k] == d[k - 16];
      }
    }
  }

  /** So is everything more than 16 positions before their end. */
  lemma PaddedHead(d: seq<bool>, q: nat)
    requires q <= |d| && forall k | 0 <= k < q - 16 :: !d[k]
    ensures var s := Zeros(16) + d[..q]; s == Zeros(q) + s[q..] && |s[q..]| == 16
  {
    hide Zeros;
    var s := Zeros(16) + d[..q];
    forall k | 0 <= k < q ensures !s[k] {
      if 16 <= k {
        assert s[k] == d[k - 16];
      }
    }
  }

  lemma LastSixteen(d: seq<bool>, q: nat, k: nat)
    requires q - 16 <= k < q <= |d|
    ensures d[k] == (Zeros(16) + d[..q])[q..][k + 16 - q]
  {
    hide Zeros;
  }

  /** Messages that differ at most within 16 adjacent bits are equal when their check bits are. */
  lemma BurstInjective(a: seq<bool>, b: seq<bool>, p: nat)
    requires |a| == |b| && CheckBits(a) == CheckBits(b)
    requires forall k | 0 <= k < |a| && !(p <= k < p + 16) :: a[k] == b[k]
    ensures a == b
  {
    hide CheckBits, Add;
    var d := Add(a, b);
    EqualCheckBits(a, b);
    AddAt(a, b);
    ShortMultiple(d, if p + 16 <= |a| then p + 16 else |a|);
    assert forall k | 0 <= k < |a| :: a[k] == b[k];
  }

  lemma AddAt(a: seq<bool>, b: seq<bool>)
    requires |a| == |b|
    ensures |Add(a, b)| == |a| && forall k | 0 <= k < |a| :: Add(a, b)[k] == (a[k] != b[k])
  {
  }

  lemma {:induction false} OddAppend(s: seq<bool>, t: seq<bool>)
    ensures Odd(s + t) == (Odd(s) != Odd(t))
    decreases |s|
  {
    if s == [] {
      assert s + t == t;
    } else {
      assert (s + t)[1..] == s[1..] + t;
      OddAppend(s[1..], t);
    }
  }

  lemma {:induction false} OddAdd(s: seq<bool>, w: seq<bool>)
    requires |w| <= |s|
    ensures Odd(Add(s, w)) == (Odd(s) != Odd(w))
    decreases |w|
  {
    if w != [] {
      OddAdd(s[1..], w[1..]);
      assert Add(s, w)[1..] == Add(s[1..], w[1..]);
    }
  }

  lemma {:induction false} OddZeros(n: nat)
    ensures !Odd(Zeros(n))
  {
    if n > 0 {
      OddZeros(n - 1);
      OddAppend(Zeros(n - 1), [false]);
    }
  }

  lemma GeneratorEven()
    ensures !Odd(GENERATOR)
  {
    var ones := [true] + Zeros(3) + [true] + Zeros(6) + [true] + Zeros(4) + [true];
    assert GENERATOR == ones;
    OddZeros(3);
    OddZeros(4);
    OddZeros(6);
    OddAppend([true], Zeros(3));
    OddAppend([true] + Zeros(3), [true]);
    OddAppend([true] + Zeros(3) + [true], Zeros(6));
    OddAppend([true] + Zeros(3) + [true] + Zeros(6), [true]);
    OddAppend([true] + Zeros(3) + [true] + Zeros(6) + [true], Zeros(4));
    OddAppend([true] + Zeros(3) + [true] + Zeros(6) + [true] + Zeros(4), [true]);
  }

  lemma {:induction false} RemainderParity(s: seq<bool>)
    requires |s| >= 16
    ensures Odd(Remainder(s)) == Odd(s)
    decreases |s|
  {
    if |s| > 16 {
      GeneratorEven();
      OddAdd(s, GENERATOR);
      RemainderParity(DivideLine(s));
    }
  }

  /** A message and its check bits together always hold an even number of ones. */
  lemma CodewordEven(m: seq<bool>)
    ensures !Odd(m + CheckBits(m))
  {
    RemainderParity(m + Zeros(16));
    OddAppend(m, Zeros(16));
    OddZeros(16);
    OddAppend(m, CheckBits(m));
  }
}
