/** What the CRC of src/crc32.c detects: any change confined to 32 consecutive
    message bits, in a message of any length. */
module Crc32Burst {
  import opened CString
  import opened Crc32

  /** Equal bits from here on keep two registers apart. */
  lemma {:induction false} RunInjective(s: bv32, t: bv32, bits: seq<bool>)
    requires RunBits(s, bits) == RunBits(t, bits)
    ensures s == t
    decreases |bits|
  {
    hide Shift, Xor;
    if bits != [] {
      var b := BitWord(bits[0]);
      RunInjective(Shift(Xor(s, b)), Shift(Xor(t, b)), bits[1..]);
      ShiftInjective(Xor(s, b), Xor(t, b));
      XorCancels(s, b);
      XorCancels(t, b);
    }
  }

  lemma BitsXor(b: bool, c: bool)
    ensures Xor(BitWord(b), BitWord(c)) == BitWord(b != c)
    ensures Xor(0, BitWord(b)) == BitWord(b)
  {
  }

  lemma GapStep(d: bv32, e: bool, n: nat)
    requires n <= 31
    requires Fits(Shift(Xor(d, BitWord(e))), n)
    ensures Fits(d, n + 1)
  {
    FitsBelowTop(n, Shift(Xor(d, BitWord(e))));
    FeedbackIsHigh(d, e);
    hide Shift, Half, Xor, BitWord, Odd;
  }

  /** Feeding the polynomial back sets the top bit; otherwise only the lowest bit
      is gone. */
  lemma FeedbackIsHigh(d: bv32, e: bool)
    ensures var x := Shift(Xor(d, BitWord(e))); x & 0x8000_0000 == 0 ==> x == Half(d)
  {
  }

  /** Two registers that meet after `|u|` more bits differ only in the low `|u|`
      places before them. */
  lemma {:induction false} GapBeforeMeeting(s: bv32, t: bv32, u: seq<bool>, v: seq<bool>)
    requires |u| == |v| <= 32
    requires RunBits(s, u) == RunBits(t, v)
    ensures Fits(Xor(s, t), |u|)
    decreases |u|, 1
  {
    hide Shift, Xor, BitWord, Fits;
    if u == [] {
      XorCancels(s, s);
      NothingFits();
    } else {
      GapMoves(s, t, u, v);
      GapStep(Xor(s, t), u[0] != v[0], |u| - 1);
    }
  }

  /** One bit later it is what they differed in and what the bits differ in, shifted. */
  lemma {:induction false} GapMoves(s: bv32, t: bv32, u: seq<bool>, v: seq<bool>)
    requires 0 < |u| == |v| <= 32
    requires RunBits(s, u) == RunBits(t, v)
    ensures Fits(Shift(Xor(Xor(s, t), BitWord(u[0] != v[0]))), |u| - 1)
    decreases |u|, 0
  {
    hide Shift, Xor, BitWord, Fits;
    var b, c := BitWord(u[0]), BitWord(v[0]);
    GapBeforeMeeting(Shift(Xor(s, b)), Shift(Xor(t, c)), u[1..], v[1..]);
    ShiftLinear(Xor(s, b), Xor(t, c));
    XorAssociates(s, b, Xor(t, c));
    XorAssociates(b, t, c);
    XorCommutes(b, t);
    XorAssociates(t, b, c);
    XorAssociates(s, t, Xor(b, c));
    BitsXor(u[0], v[0]);
  }

  lemma NothingFits()
    ensures Fits(0, 0)
  {
  }

  lemma PolynomialIsFull(s: bv32, n: nat)
    requires n <= 31
    ensures !Fits(POLYNOMIAL, n)
    ensures Shift(BitWord(true)) == POLYNOMIAL
  {
    if Fits(POLYNOMIAL, n) {
      FitsBelowTop(n, POLYNOMIAL);
    }
  }

  /** At most 32 bits, not all the same, always lead to different registers. */
  lemma {:induction false} WindowDetected(s: bv32, u: seq<bool>, v: seq<bool>)
    requires |u| == |v| <= 32 && u != v
    ensures RunBits(s, u) != RunBits(s, v)
    decreases |u|
  {
    hide Shift, Xor, BitWord, Fits;
    if u[0] == v[0] {
      assert u == [u[0]] + u[1..] && v == [v[0]] + v[1..];
      WindowDetected(Shift(Xor(s, BitWord(u[0]))), u[1..], v[1..]);
    } else if RunBits(s, u) == RunBits(s, v) {
      GapMoves(s, s, u, v);
      XorCancels(s, s);
      XorCommutes(0, BitWord(true));
      XorCancels(BitWord(true), 0);
      PolynomialIsFull(s, |u| - 1);
    }
  }

  /** Bit sequences that differ, and only within 32 consecutive places. */
  ghost predicate Burst(u: seq<bool>, v: seq<bool>, from: nat)
  {
    && |u| == |v| && u != v
    && forall i :: 0 <= i < |u| && u[i] != v[i] ==> from <= i < from + 32
  }

  lemma SplitRun(s: bv32, u: seq<bool>, from: nat, to: nat)
    requires from <= to <= |u|
    ensures RunBits(s, u) == RunBits(RunBits(RunBits(s, u[..from]), u[from..to]), u[to..])
  {
    hide RunBits;
    assert u == u[..to] + u[to..] && u[..to] == u[..from] + u[from..to];
    RunBitsConcat(s, u[..to], u[to..]);
    RunBitsConcat(s, u[..from], u[from..to]);
  }

  lemma BitBurstDetected(s: bv32, u: seq<bool>, v: seq<bool>, from: nat)
    requires Burst(u, v, from)
    ensures RunBits(s, u) != RunBits(s, v)
  {
    hide RunBits;
    var k :| 0 <= k < |u| && u[k] != v[k];
    var to := if from + 32 <= |u| then from + 32 else |u|;
    assert u[..from] == v[..from] && u[to..] == v[to..];
    assert u[from..to][k - from] != v[from..to][k - from];
    SplitRun(s, u, from, to);
    SplitRun(s, v, from, to);
    var s1 := RunBits(s, u[..from]);
    WindowDetected(s1, u[from..to], v[from..to]);
    if RunBits(s, u) == RunBits(s, v) {
      RunInjective(RunBits(s1, u[from..to]), RunBits(s1, v[from..to]), u[to..]);
    }
  }

  /** A change of message bits within a window of 32 always changes the CRC. */
  lemma BurstDetected(x: seq<byte>, y: seq<byte>, from: nat)
    requires Burst(MessageBits(x), MessageBits(y), from)
    ensures Crc(x) != Crc(y)
  {
    hide RunBits, MessageBits, Burst;
    BitBurstDetected(PRESET, MessageBits(x), MessageBits(y), from);
    if Crc(x) == Crc(y) {
      NotInjective(RunBits(PRESET, MessageBits(x)), RunBits(PRESET, MessageBits(y)));
    }
  }

  lemma NotInjective(a: bv32, b: bv32)
    requires !a == !b
    ensures a == b
  {
  }

  // ----- Bits of octets -------------------------------------------------------

  lemma {:induction false} MessageBitAt(s: seq<byte>, i: nat)
    requires i < 8 * |s|
    ensures MessageBits(s)[i] == Bits(8, s[i / 8] as int)[i % 8]
  {
    hide Bits;
    if i >= 8 {
      MessageBitAt(s[1..], i - 8);
    }
  }

  lemma {:induction false} BitsInjective(n: nat, x: nat, y: nat)
    requires x < Pow2(n) && y < Pow2(n) && Bits(n, x) == Bits(n, y)
    ensures x == y
  {
    if n > 0 {
      assert Bits(n, x)[1..] == Bits(n - 1, x / 2) && Bits(n, y)[1..] == Bits(n - 1, y / 2);
      assert Bits(n, x)[0] == Bits(n, y)[0];
      BitsInjective(n - 1, x / 2, y / 2);
    }
  }

  /** Octets changed within four consecutive positions are such a burst. */
  lemma OctetBurst(x: seq<byte>, y: seq<byte>, from: nat)
    requires |x| == |y| && x != y
    requires forall i :: 0 <= i < |x| && x[i] != y[i] ==> from <= i < from + 4
    ensures Burst(MessageBits(x), MessageBits(y), 8 * from)
  {
    hide MessageBits, Bits;
    var u, v := MessageBits(x), MessageBits(y);
    forall i | 0 <= i < |u| && u[i] != v[i]
      ensures 8 * from <= i < 8 * from + 32
    {
      MessageBitAt(x, i);
      MessageBitAt(y, i);
      assert x[i / 8] != y[i / 8];
    }
    var k :| 0 <= k < |x| && x[k] != y[k];
    if u == v {
      var b, c := Bits(8, x[k] as int), Bits(8, y[k] as int);
      forall j | 0 <= j < 8
        ensures b[j] == c[j]
      {
        MessageBitAt(x, 8 * k + j);
        MessageBitAt(y, 8 * k + j);
      }
      assert b == c;
      assert Pow2(8) == 256;
      BitsInjective(8, x[k] as int, y[k] as int);
    }
  }
}
