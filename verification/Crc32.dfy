/** The CRC-32 of src/crc32.c: one table lookup per octet, over a table of 256
    words.  The reference it is proved against is the shift register that takes
    one bit at a time, the definition that section 8 of RFC 1952 tabulates.

    Dafny's conversions between bit-vectors and integers are opaque to the
    solver, so the few places where the C code reinterprets an octet go through
    `ToWord` and `FromWord`, which spell the binary expansion out. */
module Crc32 {
  import opened CString

  const POLYNOMIAL: bv32 := 0xedb88320

  // The table in rows of sixteen, which the solver can look things up in.
  const ROW_0: seq<bv32> := [
    0x00000000, 0x77073096, 0xee0e612c, 0x990951ba, 0x076dc419, 0x706af48f, 0xe963a535, 0x9e6495a3,
    0x0edb8832, 0x79dcb8a4, 0xe0d5e91e, 0x97d2d988, 0x09b64c2b, 0x7eb17cbd, 0xe7b82d07, 0x90bf1d91
  ]
  const ROW_1: seq<bv32> := [
    0x1db71064, 0x6ab020f2, 0xf3b97148, 0x84be41de, 0x1adad47d, 0x6ddde4eb, 0xf4d4b551, 0x83d385c7,
    0x136c9856, 0x646ba8c0, 0xfd62f97a, 0x8a65c9ec, 0x14015c4f, 0x63066cd9, 0xfa0f3d63, 0x8d080df5
  ]
  const ROW_2: seq<bv32> := [
    0x3b6e20c8, 0x4c69105e, 0xd56041e4, 0xa2677172, 0x3c03e4d1, 0x4b04d447, 0xd20d85fd, 0xa50ab56b,
    0x35b5a8fa, 0x42b2986c, 0xdbbbc9d6, 0xacbcf940, 0x32d86ce3, 0x45df5c75, 0xdcd60dcf, 0xabd13d59
  ]
  const ROW_3: seq<bv32> := [
    0x26d930ac, 0x51de003a, 0xc8d75180, 0xbfd06116, 0x21b4f4b5, 0x56b3c423, 0xcfba9599, 0xb8bda50f,
    0x2802b89e, 0x5f058808, 0xc60cd9b2, 0xb10be924, 0x2f6f7c87, 0x58684c11, 0xc1611dab, 0xb6662d3d
  ]
  const ROW_4: seq<bv32> := [
    0x76dc4190, 0x01db7106, 0x98d220bc, 0xefd5102a, 0x71b18589, 0x06b6b51f, 0x9fbfe4a5, 0xe8b8d433,
    0x7807c9a2, 0x0f00f934, 0x9609a88e, 0xe10e9818, 0x7f6a0dbb, 0x086d3d2d, 0x91646c97, 0xe6635c01
  ]
  const ROW_5: seq<bv32> := [
    0x6b6b51f4, 0x1c6c6162, 0x856530d8, 0xf262004e, 0x6c0695ed, 0x1b01a57b, 0x8208f4c1, 0xf50fc457,
    0x65b0d9c6, 0x12b7e950, 0x8bbeb8ea, 0xfcb9887c, 0x62dd1ddf, 0x15da2d49, 0x8cd37cf3, 0xfbd44c65
  ]
  const ROW_6: seq<bv32> := [
    0x4db26158, 0x3ab551ce, 0xa3bc0074, 0xd4bb30e2, 0x4adfa541, 0x3dd895d7, 0xa4d1c46d, 0xd3d6f4fb,
    0x4369e96a, 0x346ed9fc, 0xad678846, 0xda60b8d0, 0x44042d73, 0x33031de5, 0xaa0a4c5f, 0xdd0d7cc9
  ]
  const ROW_7: seq<bv32> := [
    0x5005713c, 0x270241aa, 0xbe0b1010, 0xc90c2086, 0x5768b525, 0x206f85b3, 0xb966d409, 0xce61e49f,
    0x5edef90e, 0x29d9c998, 0xb0d09822, 0xc7d7a8b4, 0x59b33d17, 0x2eb40d81, 0xb7bd5c3b, 0xc0ba6cad
  ]
  const ROW_8: seq<bv32> := [
    0xedb88320, 0x9abfb3b6, 0x03b6e20c, 0x74b1d29a, 0xead54739, 0x9dd277af, 0x04db2615, 0x73dc1683,
    0xe3630b12, 0x94643b84, 0x0d6d6a3e, 0x7a6a5aa8, 0xe40ecf0b, 0x9309ff9d, 0x0a00ae27, 0x7d079eb1
  ]
  const ROW_9: seq<bv32> := [
    0xf00f9344, 0x8708a3d2, 0x1e01f268, 0x6906c2fe, 0xf762575d, 0x806567cb, 0x196c3671, 0x6e6b06e7,
    0xfed41b76, 0x89d32be0, 0x10da7a5a, 0x67dd4acc, 0xf9b9df6f, 0x8ebeeff9, 0x17b7be43, 0x60b08ed5
  ]
  const ROW_A: seq<bv32> := [
    0xd6d6a3e8, 0xa1d1937e, 0x38d8c2c4, 0x4fdff252, 0xd1bb67f1, 0xa6bc5767, 0x3fb506dd, 0x48b2364b,
    0xd80d2bda, 0xaf0a1b4c, 0x36034af6, 0x41047a60, 0xdf60efc3, 0xa867df55, 0x316e8eef, 0x4669be79
  ]
  const ROW_B: seq<bv32> := [
    0xcb61b38c, 0xbc66831a, 0x256fd2a0, 0x5268e236, 0xcc0c7795, 0xbb0b4703, 0x220216b9, 0x5505262f,
    0xc5ba3bbe, 0xb2bd0b28, 0x2bb45a92, 0x5cb36a04, 0xc2d7ffa7, 0xb5d0cf31, 0x2cd99e8b, 0x5bdeae1d
  ]
  const ROW_C: seq<bv32> := [
    0x9b64c2b0, 0xec63f226, 0x756aa39c, 0x026d930a, 0x9c0906a9, 0xeb0e363f, 0x72076785, 0x05005713,
    0x95bf4a82, 0xe2b87a14, 0x7bb12bae, 0x0cb61b38, 0x92d28e9b, 0xe5d5be0d, 0x7cdcefb7, 0x0bdbdf21
  ]
  const ROW_D: seq<bv32> := [
    0x86d3d2d4, 0xf1d4e242, 0x68ddb3f8, 0x1fda836e, 0x81be16cd, 0xf6b9265b, 0x6fb077e1, 0x18b74777,
    0x88085ae6, 0xff0f6a70, 0x66063bca, 0x11010b5c, 0x8f659eff, 0xf862ae69, 0x616bffd3, 0x166ccf45
  ]
  const ROW_E: seq<bv32> := [
    0xa00ae278, 0xd70dd2ee, 0x4e048354, 0x3903b3c2, 0xa7672661, 0xd06016f7, 0x4969474d, 0x3e6e77db,
    0xaed16a4a, 0xd9d65adc, 0x40df0b66, 0x37d83bf0, 0xa9bcae53, 0xdebb9ec5, 0x47b2cf7f, 0x30b5ffe9
  ]
  const ROW_F: seq<bv32> := [
    0xbdbdf21c, 0xcabac28a, 0x53b39330, 0x24b4a3a6, 0xbad03605, 0xcdd70693, 0x54de5729, 0x23d967bf,
    0xb3667a2e, 0xc4614ab8, 0x5d681b02, 0x2a6f2b94, 0xb40bbe37, 0xc30c8ea1, 0x5a05df1b, 0x2d02ef8d
  ]

  const CRC_32_TAB: seq<seq<bv32>> := [
    ROW_0, ROW_1, ROW_2, ROW_3, ROW_4, ROW_5, ROW_6, ROW_7,
    ROW_8, ROW_9, ROW_A, ROW_B, ROW_C, ROW_D, ROW_E, ROW_F
  ]

  // ----- The shift register ---------------------------------------------------

  function Xor(x: bv32, y: bv32): bv32 {
    x ^ y
  }

  predicate Odd(x: bv32) {
    x & 1 == 1
  }

  function Half(x: bv32): bv32 {
    x >> 1
  }

  /** One step of the reflected division: shift right, feed the polynomial back. */
  function Shift(x: bv32): bv32 {
    if Odd(x) then Xor(Half(x), POLYNOMIAL) else Half(x)
  }

  function Shifts(n: nat, x: bv32): bv32 {
    if n == 0 then x else Shifts(n - 1, Shift(x))
  }

  function BitWord(b: bool): bv32 {
    if b then 1 else 0
  }

  /** The bit-at-a-time register: every message bit enters at the low end. */
  function RunBits(state: bv32, bits: seq<bool>): bv32
    decreases |bits|
  {
    if bits == [] then state
    else RunBits(Shift(Xor(state, BitWord(bits[0]))), bits[1..])
  }

  /** The low `n` bits of a number, lowest first. */
  function Bits(n: nat, x: nat): (r: seq<bool>)
    ensures |r| == n
  {
    if n == 0 then [] else [x % 2 == 1] + Bits(n - 1, x / 2)
  }

  /** A message as the register sees it: octets in order, each lowest bit first. */
  function MessageBits(s: seq<byte>): (r: seq<bool>)
    ensures |r| == 8 * |s|
  {
    if s == [] then [] else Bits(8, s[0] as int) + MessageBits(s[1..])
  }

  const PRESET: bv32 := 0xffff_ffff

  /** CRC-32: all-ones preset, bit-serial division, final complement. */
  function Crc(s: seq<byte>): bv32 {
    !RunBits(PRESET, MessageBits(s))
  }

  // ----- Octets and words -----------------------------------------------------

  function Append(w: bv32, b: bool): bv32 {
    (w << 1) | BitWord(b)
  }

  /** The low `n` bits of a number as a word. */
  function ToWord(n: nat, x: nat): bv32 {
    if n == 0 then 0 else Append(ToWord(n - 1, x / 2), x % 2 == 1)
  }

  /** The number in the low `n` bits of a word. */
  function FromWord(n: nat, x: bv32): nat {
    if n == 0 then 0 else 2 * FromWord(n - 1, Half(x)) + (if Odd(x) then 1 else 0)
  }

  /** `n` ones. */
  function Ones(n: nat): bv32 {
    if n == 0 then 0 else (Ones(n - 1) << 1) | 1
  }

  /** The low `n` bits of a word. */
  function Low(n: nat, x: bv32): bv32 {
    x & Ones(n)
  }

  function Halves(n: nat, x: bv32): bv32 {
    if n == 0 then x else Halves(n - 1, Half(x))
  }

  /** No bit at position `n` or above. */
  predicate Fits(x: bv32, n: nat) {
    Halves(n, x) == 0
  }

  function Pow2(n: nat): nat {
    if n == 0 then 1 else 2 * Pow2(n - 1)
  }

  lemma {:induction false} ZeroHalves(n: nat)
    ensures Halves(n, 0) == 0
  {
    if n > 0 {
      assert Half(0) == 0;
      ZeroHalves(n - 1);
    }
  }

  lemma {:induction false} HalvesSum(m: nat, n: nat, x: bv32)
    ensures Halves(m + n, x) == Halves(n, Halves(m, x))
    decreases m
  {
    hide Half;
    if m > 0 {
      HalvesSum(m - 1, n, Half(x));
    }
  }

  function Nibble(x: bv32): bv32 {
    x >> 4
  }

  lemma FourHalves(x: bv32)
    ensures Half(Half(Half(Half(x)))) == Nibble(x)
  {
  }

  lemma HalvesByNibble(n: nat, x: bv32)
    requires n >= 4
    ensures Halves(n, x) == Halves(n - 4, Nibble(x))
  {
    FourHalves(x);
    hide Half, Nibble;
    var x2 := Half(Half(x));
    assert Halves(n, x) == Halves(n - 1, Half(x)) == Halves(n - 2, x2);
    assert Halves(n - 2, x2) == Halves(n - 3, Half(x2)) == Halves(n - 4, Half(Half(x2)));
  }

  lemma OctetHalves(x: bv32)
    ensures Halves(8, x) == x >> 8
  {
    TwoNibbles(x);
    hide Half, Nibble;
    HalvesByNibble(8, x);
    HalvesByNibble(4, Nibble(x));
  }

  lemma TwoNibbles(x: bv32)
    ensures Nibble(Nibble(x)) == x >> 8
  {
  }

  function Nibbles(k: nat, x: bv32): bv32 {
    if k == 0 then x else Nibbles(k - 1, Nibble(x))
  }

  lemma {:induction false} HalvesByNibbles(k: nat, m: nat, x: bv32)
    ensures Halves(4 * k + m, x) == Halves(m, Nibbles(k, x))
    decreases k
  {
    hide Nibble;
    if k > 0 {
      HalvesByNibble(4 * k + m, x);
      HalvesByNibbles(k - 1, m, Nibble(x));
      hide Halves;
    }
  }

  lemma LastHalves(x: bv32)
    ensures Halves(3, x) == Half(Half(Half(x)))
  {
    hide Half;
    var x1 := Half(x);
    var x2 := Half(x1);
    assert Halves(3, x) == Halves(2, x1);
    assert Halves(2, x1) == Halves(1, x2);
    assert Halves(1, x2) == Halves(0, Half(x2));
  }

  lemma SevenNibbles(x: bv32)
    ensures Nibbles(7, x) == Nibble(Nibble(Nibble(Nibble(Nibble(Nibble(Nibble(x)))))))
  {
    hide Nibble;
    var x1 := Nibble(x);
    var x2 := Nibble(x1);
    var x3 := Nibble(x2);
    var x4 := Nibble(x3);
    var x5 := Nibble(x4);
    var x6 := Nibble(x5);
    assert Nibbles(7, x) == Nibbles(6, x1);
    assert Nibbles(6, x1) == Nibbles(5, x2);
    assert Nibbles(5, x2) == Nibbles(4, x3);
    assert Nibbles(4, x3) == Nibbles(3, x4);
    assert Nibbles(3, x4) == Nibbles(2, x5);
    assert Nibbles(2, x5) == Nibbles(1, x6);
    assert Nibbles(1, x6) == Nibbles(0, Nibble(x6));
  }

  lemma FitsBelowTop(n: nat, x: bv32)
    requires n <= 31 && Fits(x, n)
    ensures x & 0x8000_0000 == 0
  {
    TopBit(x);
    TopHalves(n, x);
    hide *;
  }

  lemma TopHalves(n: nat, x: bv32)
    requires n <= 31 && Halves(n, x) == 0
    ensures Half(Half(Half(Nibble(Nibble(Nibble(Nibble(Nibble(Nibble(Nibble(x)))))))))) == 0
  {
    hide *;
    HalvesSum(n, 31 - n, x);
    ZeroHalves(31 - n);
    HalvesByNibbles(7, 3, x);
    SevenNibbles(x);
    LastHalves(Nibbles(7, x));
  }

  lemma TopBit(x: bv32)
    ensures Half(Half(Half(Nibble(Nibble(Nibble(Nibble(Nibble(Nibble(Nibble(x)))))))))) == 0 ==> x & 0x8000_0000 == 0
  {
  }

  lemma AppendHalves(w: bv32, b: bool)
    requires w & 0x8000_0000 == 0
    ensures Odd(Append(w, b)) == b
    ensures Half(Append(w, b)) == w
  {
  }

  lemma {:induction false} ToWordFits(n: nat, x: nat)
    requires n <= 32
    ensures Fits(ToWord(n, x), n)
  {
    if n > 0 {
      var w := ToWord(n - 1, x / 2);
      ToWordFits(n - 1, x / 2);
      FitsBelowTop(n - 1, w);
      AppendHalves(w, x % 2 == 1);
      hide Half, Append;
      assert Halves(n, ToWord(n, x)) == Halves(n - 1, Half(ToWord(n, x)));
    }
  }

  lemma LowHalves(n: nat, x: bv32)
    requires n > 0
    ensures Append(Low(n - 1, Half(x)), Odd(x)) == Low(n, x)
  {
  }

  lemma ToWordHalves(n: nat, x: nat)
    requires 0 < n <= 32
    ensures Odd(ToWord(n, x)) == (x % 2 == 1)
    ensures Half(ToWord(n, x)) == ToWord(n - 1, x / 2)
  {
    hide Odd, Half, Append, Fits;
    ToWordFits(n - 1, x / 2);
    FitsBelowTop(n - 1, ToWord(n - 1, x / 2));
    AppendHalves(ToWord(n - 1, x / 2), x % 2 == 1);
  }

  lemma NoBits(x: bv32)
    ensures Low(0, x) == 0
  {
  }

  lemma {:induction false} WordRoundTrip(n: nat, x: bv32)
    ensures FromWord(n, x) < Pow2(n)
    ensures ToWord(n, FromWord(n, x)) == Low(n, x)
  {
    hide Odd, Half, Append, Low;
    if n == 0 {
      NoBits(x);
    } else {
      WordRoundTrip(n - 1, Half(x));
      LowHalves(n, x);
    }
  }

  lemma {:induction false} NumberRoundTrip(n: nat, x: nat)
    requires n <= 32 && x < Pow2(n)
    ensures FromWord(n, ToWord(n, x)) == x
  {
    if n > 0 {
      ToWordHalves(n, x);
      NumberRoundTrip(n - 1, x / 2);
    }
  }

  // ----- Algebra of the register ----------------------------------------------
  // Every proof below that needs more than one exclusive-or hides `Xor`, and
  // works from these facts instead.

  lemma XorAssociates(x: bv32, y: bv32, z: bv32)
    ensures Xor(Xor(x, y), z) == Xor(x, Xor(y, z))
  {
  }

  lemma XorCommutes(x: bv32, y: bv32)
    ensures Xor(x, y) == Xor(y, x)
  {
  }

  lemma XorCancels(x: bv32, y: bv32)
    ensures Xor(Xor(x, y), y) == x
    ensures Xor(x, 0) == x
    ensures Xor(x, x) == 0
  {
  }

  lemma PartsLinear(x: bv32, y: bv32)
    ensures Half(Xor(x, y)) == Xor(Half(x), Half(y))
    ensures Odd(Xor(x, y)) == (Odd(x) != Odd(y))
  {
    assert (x ^ y) & 1 == (x & 1) ^ (y & 1);
    assert (x & 1 == 0 || x & 1 == 1) && (y & 1 == 0 || y & 1 == 1);
  }

  lemma ShiftLinear(x: bv32, y: bv32)
    ensures Shift(Xor(x, y)) == Xor(Shift(x), Shift(y))
  {
    hide Xor, Odd, Half;
    var a, b := Half(x), Half(y);
    PartsLinear(x, y);
    XorAssociates(a, b, POLYNOMIAL);
    XorCommutes(b, POLYNOMIAL);
    XorAssociates(a, POLYNOMIAL, b);
    XorAssociates(Xor(a, POLYNOMIAL), b, POLYNOMIAL);
    XorCancels(Xor(a, b), POLYNOMIAL);
  }

  lemma ShiftInjective(x: bv32, y: bv32)
    requires Shift(x) == Shift(y)
    ensures x == y
  {
  }

  lemma {:induction false} ShiftsLinear(n: nat, x: bv32, y: bv32)
    ensures Shifts(n, Xor(x, y)) == Xor(Shifts(n, x), Shifts(n, y))
  {
    hide Xor, Shift;
    if n > 0 {
      ShiftLinear(x, y);
      ShiftsLinear(n - 1, Shift(x), Shift(y));
    }
  }

  lemma LowAndHigh(w: bv32)
    ensures Xor(BitWord(Odd(w)), Half(w) << 1) == w
    ensures Shift(Half(w) << 1) == Half(w)
  {
  }

  /** Bits above the lowest wait their turn: they only move down one place. */
  lemma ShiftDelays(state: bv32, w: bv32)
    ensures Shift(Xor(state, w)) == Xor(Shift(Xor(state, BitWord(Odd(w)))), Half(w))
  {
    hide Xor, Shift, Odd, Half, BitWord;
    var low, high := BitWord(Odd(w)), Half(w) << 1;
    LowAndHigh(w);
    XorAssociates(state, low, high);
    ShiftLinear(Xor(state, low), high);
  }

  /** Mixing a whole octet in and shifting eight times is feeding its eight bits. */
  lemma {:induction false} ShiftsAreBits(n: nat, state: bv32, x: nat)
    requires n <= 32
    ensures Shifts(n, Xor(state, ToWord(n, x))) == RunBits(state, Bits(n, x))
  {
    hide Xor, Shift, Odd, Half, BitWord;
    if n == 0 {
      XorCancels(state, 0);
    } else {
      var next := Shift(Xor(state, BitWord(x % 2 == 1)));
      ToWordHalves(n, x);
      ShiftDelays(state, ToWord(n, x));
      ShiftsAreBits(n - 1, next, x / 2);
      assert Bits(n, x)[1..] == Bits(n - 1, x / 2);
    }
  }

  // ----- The table ------------------------------------------------------------

  /** Two relations that pin each entry of a row down by smaller entries: those
      at even places halve into `halves`, the others follow their neighbour. */
  predicate RowChecked(row: seq<bv32>, halves: seq<bv32>, offset: nat, one: bv32) {
    && |row| == |halves| == 16 && offset + 8 <= 16
    && Shift(row[0]) == halves[offset + 0] && row[1] == Xor(row[0], one)
    && Shift(row[2]) == halves[offset + 1] && row[3] == Xor(row[2], one)
    && Shift(row[4]) == halves[offset + 2] && row[5] == Xor(row[4], one)
    && Shift(row[6]) == halves[offset + 3] && row[7] == Xor(row[6], one)
    && Shift(row[8]) == halves[offset + 4] && row[9] == Xor(row[8], one)
    && Shift(row[10]) == halves[offset + 5] && row[11] == Xor(row[10], one)
    && Shift(row[12]) == halves[offset + 6] && row[13] == Xor(row[12], one)
    && Shift(row[14]) == halves[offset + 7] && row[15] == Xor(row[14], one)
  }

  lemma Rows0To3Checked()
    ensures |CRC_32_TAB| == 16
    ensures RowChecked(CRC_32_TAB[0], CRC_32_TAB[0], 0, 0x77073096)
    ensures RowChecked(CRC_32_TAB[1], CRC_32_TAB[0], 8, 0x77073096)
    ensures RowChecked(CRC_32_TAB[2], CRC_32_TAB[1], 0, 0x77073096)
    ensures RowChecked(CRC_32_TAB[3], CRC_32_TAB[1], 8, 0x77073096)
  {
  }

  lemma Rows4To7Checked()
    ensures |CRC_32_TAB| == 16
    ensures RowChecked(CRC_32_TAB[4], CRC_32_TAB[2], 0, 0x77073096)
    ensures RowChecked(CRC_32_TAB[5], CRC_32_TAB[2], 8, 0x77073096)
    ensures RowChecked(CRC_32_TAB[6], CRC_32_TAB[3], 0, 0x77073096)
    ensures RowChecked(CRC_32_TAB[7], CRC_32_TAB[3], 8, 0x77073096)
  {
  }

  lemma Rows8ToBChecked()
    ensures |CRC_32_TAB| == 16
    ensures RowChecked(CRC_32_TAB[8], CRC_32_TAB[4], 0, 0x77073096)
    ensures RowChecked(CRC_32_TAB[9], CRC_32_TAB[4], 8, 0x77073096)
    ensures RowChecked(CRC_32_TAB[10], CRC_32_TAB[5], 0, 0x77073096)
    ensures RowChecked(CRC_32_TAB[11], CRC_32_TAB[5], 8, 0x77073096)
  {
  }

  lemma RowsCToFChecked()
    ensures |CRC_32_TAB| == 16
    ensures RowChecked(CRC_32_TAB[12], CRC_32_TAB[6], 0, 0x77073096)
    ensures RowChecked(CRC_32_TAB[13], CRC_32_TAB[6], 8, 0x77073096)
    ensures RowChecked(CRC_32_TAB[14], CRC_32_TAB[7], 0, 0x77073096)
    ensures RowChecked(CRC_32_TAB[15], CRC_32_TAB[7], 8, 0x77073096)
  {
  }

  lemma RowOf(r: nat)
    requires r < 16
    ensures |CRC_32_TAB| == 16
    ensures RowChecked(CRC_32_TAB[r], CRC_32_TAB[r / 2], 8 * (r % 2), 0x77073096)
  {
    hide *;
    if r < 4 {
      Rows0To3Checked();
      assert r == 0 || r == 1 || r == 2 || r == 3;
    } else if r < 8 {
      Rows4To7Checked();
      assert r == 4 || r == 5 || r == 6 || r == 7;
    } else if r < 12 {
      Rows8ToBChecked();
      assert r == 8 || r == 9 || r == 10 || r == 11;
    } else {
      RowsCToFChecked();
      assert r == 12 || r == 13 || r == 14 || r == 15;
    }
  }

  lemma RowSize(r: nat)
    requires r < 16
    ensures |CRC_32_TAB| == 16 && |CRC_32_TAB[r]| == 16
  {
    RowOf(r);
  }

  function TableEntry(i: nat): bv32
    requires i < 256
  {
    RowSize(i / 16);
    CRC_32_TAB[i / 16][i % 16]
  }

  lemma RowRelation(row: seq<bv32>, halves: seq<bv32>, offset: nat, one: bv32, j: nat)
    requires RowChecked(row, halves, offset, one) && j < 16
    ensures j % 2 == 0 ==> Shift(row[j]) == halves[offset + j / 2]
    ensures j % 2 == 1 ==> row[j] == Xor(row[j - 1], one)
  {
    hide Shift, Xor;
  }

  lemma IndexParts(i: nat)
    ensures i / 2 / 16 == i / 16 / 2
    ensures i / 2 % 16 == 8 * (i / 16 % 2) + i % 16 / 2
    ensures i % 2 == 1 ==> (i - 1) / 16 == i / 16 && (i - 1) % 16 == i % 16 - 1
    ensures i % 16 % 2 == i % 2
  {
  }

  lemma EntryRelation(i: nat)
    requires i < 256
    ensures i % 2 == 0 ==> Shift(TableEntry(i)) == TableEntry(i / 2)
    ensures i % 2 == 1 ==> TableEntry(i) == Xor(TableEntry(i - 1), 0x77073096)
  {
    hide Shift, Xor, RowChecked, CRC_32_TAB;
    RowOf(i / 16);
    IndexParts(i);
    RowRelation(CRC_32_TAB[i / 16], CRC_32_TAB[i / 16 / 2], 8 * (i / 16 % 2), 0x77073096, i % 16);
  }

  lemma {:induction false} ToWordWidens(n: nat, x: nat)
    requires x < Pow2(n)
    ensures ToWord(n + 1, x) == ToWord(n, x)
  {
    if n > 0 {
      ToWordWidens(n - 1, x / 2);
    }
  }

  lemma ShiftsOnce(n: nat, x: bv32)
    ensures Shift(Shifts(n, x)) == Shifts(n, Shift(x))
  {
    hide Shift;
    if n > 0 {
      ShiftsOnce(n - 1, Shift(x));
    }
  }

  lemma OddWord(w: bv32)
    ensures Append(w, true) == Xor(Append(w, false), 1)
  {
  }

  lemma FirstEntries()
    ensures TableEntry(0) == 0 && Shifts(8, 0) == 0
    ensures Shifts(8, 1) == 0x77073096
    ensures ToWord(8, 0) == 0
  {
  }

  lemma EvenShift(x: bv32)
    ensures !Odd(x) ==> Shift(x) == Half(x)
  {
  }

  lemma EvenEntry(i: nat)
    requires i < 256 && i % 2 == 0 && TableEntry(i / 2) == Shifts(8, ToWord(8, i / 2))
    ensures TableEntry(i) == Shifts(8, ToWord(8, i))
  {
    assert Pow2(7) == 128;
    hide *;
    EntryRelation(i);
    ToWordHalves(8, i);
    ToWordWidens(7, i / 2);
    EvenShift(ToWord(8, i));
    ShiftsOnce(8, ToWord(8, i));
    ShiftInjective(TableEntry(i), Shifts(8, ToWord(8, i)));
  }

  lemma OddEntry(i: nat)
    requires i < 256 && i % 2 == 1 && TableEntry(i - 1) == Shifts(8, ToWord(8, i - 1))
    ensures TableEntry(i) == Shifts(8, ToWord(8, i))
  {
    hide Shift, Xor, Odd, Half, Append, TableEntry, Shifts;
    FirstEntries();
    EntryRelation(i);
    OddWord(ToWord(7, i / 2));
    ShiftsLinear(8, ToWord(8, i - 1), 1);
  }

  /** Each entry is eight steps of the register from its own index. */
  lemma {:induction false} EntryIsShifts(i: nat)
    requires i < 256
    ensures TableEntry(i) == Shifts(8, ToWord(8, i))
  {
    hide *;
    FirstEntries();
    if i % 2 == 1 {
      EntryIsShifts(i - 1);
      OddEntry(i);
    } else if i > 0 {
      EntryIsShifts(i / 2);
      EvenEntry(i);
    }
  }

  // ----- crc32buf -------------------------------------------------------------

  /** Where the UPDC32 macro looks: the low octet of register and octet mixed. */
  function TableIndex(octet: byte, crc: bv32): (r: nat)
    ensures r < 256
  {
    hide Xor, Odd, Half, ToWord;
    WordRoundTrip(8, Xor(crc, ToWord(8, octet as int)));
    assert Pow2(8) == 256;
    FromWord(8, Xor(crc, ToWord(8, octet as int)))
  }

  /** The UPDC32 macro. */
  function Updc32(octet: byte, crc: bv32): bv32 {
    Xor(TableEntry(TableIndex(octet, crc)), crc >> 8)
  }

  lemma SplitOctet(y: bv32)
    ensures Xor(y & 0xff, (y >> 8) << 8) == y
    ensures Low(8, y) == y & 0xff
  {
    assert Ones(8) == 0xff;
  }

  lemma LowClearHalves(n: nat, x: bv32)
    requires n > 0 && Low(n, x) == 0
    ensures Shift(x) == Half(x) && Low(n - 1, Half(x)) == 0
  {
  }

  lemma {:induction false} ShiftsOfEven(n: nat, x: bv32)
    requires Low(n, x) == 0
    ensures Shifts(n, x) == Halves(n, x)
  {
    hide Shift, Half, Low;
    if n > 0 {
      LowClearHalves(n, x);
      ShiftsOfEven(n - 1, Half(x));
    }
  }

  lemma HighOctets(y: bv32)
    ensures Shifts(8, (y >> 8) << 8) == y >> 8
  {
    var x := (y >> 8) << 8;
    hide *;
    HighAgain(y);
    ShiftsOfEven(8, x);
    OctetHalves(x);
  }

  lemma HighAgain(y: bv32)
    ensures ((y >> 8) << 8) >> 8 == y >> 8
    ensures Low(8, (y >> 8) << 8) == 0
  {
    assert Ones(8) == 0xff;
  }

  lemma HighOctetsKept(crc: bv32, w: bv32)
    requires Fits(w, 8)
    ensures Xor(crc, w) >> 8 == crc >> 8
  {
    OctetHalves(w);
    hide Halves;
  }

  /** One lookup does what eight steps of the register do. */
  lemma LookupIsShifts(octet: byte, crc: bv32)
    ensures Updc32(octet, crc) == Shifts(8, Xor(crc, ToWord(8, octet as int)))
  {
    hide Shift, Shifts, Xor, Odd, Half, Append, TableEntry, Low, Fits, ToWord, FromWord;
    var w := ToWord(8, octet as int);
    var y := Xor(crc, w);
    WordRoundTrip(8, y);
    EntryIsShifts(TableIndex(octet, crc));
    SplitOctet(y);
    ShiftsLinear(8, y & 0xff, (y >> 8) << 8);
    HighOctets(y);
    ToWordFits(8, octet as int);
    HighOctetsKept(crc, w);
  }

  lemma {:induction false} RunBitsConcat(state: bv32, u: seq<bool>, v: seq<bool>)
    ensures RunBits(state, u + v) == RunBits(RunBits(state, u), v)
    decreases |u|
  {
    hide Shift, Xor;
    if u == [] {
      assert u + v == v;
    } else {
      assert (u + v)[1..] == u[1..] + v;
      RunBitsConcat(Shift(Xor(state, BitWord(u[0]))), u[1..], v);
    }
  }

  lemma {:induction false} MessageBitsConcat(s: seq<byte>, t: seq<byte>)
    ensures MessageBits(s + t) == MessageBits(s) + MessageBits(t)
  {
    hide Bits;
    if s == [] {
      assert s + t == t;
    } else {
      assert (s + t)[1..] == s[1..] + t;
      MessageBitsConcat(s[1..], t);
      assert MessageBits(s + t) == Bits(8, s[0] as int) + (MessageBits(s[1..]) + MessageBits(t));
    }
  }

  /** The register over a buffer that is split anywhere. */
  lemma RegisterComposes(state: bv32, s: seq<byte>, t: seq<byte>)
    ensures RunBits(state, MessageBits(s + t)) == RunBits(RunBits(state, MessageBits(s)), MessageBits(t))
  {
    MessageBitsConcat(s, t);
    RunBitsConcat(state, MessageBits(s), MessageBits(t));
  }

  lemma RegisterStep(state: bv32, c: byte)
    ensures RunBits(state, MessageBits([c])) == Shifts(8, Xor(state, ToWord(8, c as int)))
  {
    hide Shift, Shifts, Xor, Bits, ToWord;
    ShiftsAreBits(8, state, c as int);
    assert [c][1..] == [];
    assert MessageBits([c][1..]) == [];
    assert MessageBits([c]) == Bits(8, c as int);
  }

  /** The table-driven loop computes the bit-serial CRC. */
  method Crc32Buf(buf: array<byte>, start: nat, len: nat) returns (crc: bv32)
    requires start + len <= buf.Length
    ensures crc == Crc(buf[start..start + len])
  {
    hide Shift, Shifts, Xor, Bits, Updc32;
    var crc32: bv32 := PRESET;
    var left, p := len, start;
    while left > 0
      invariant 0 <= left <= len && p == start + (len - left)
      invariant crc32 == RunBits(PRESET, MessageBits(buf[start..p]))
    {
      assert buf[start..p + 1] == buf[start..p] + [buf[p]];
      RegisterComposes(PRESET, buf[start..p], [buf[p]]);
      RegisterStep(crc32, buf[p]);
      LookupIsShifts(buf[p], crc32);
      crc32 := Updc32(buf[p], crc32);
      left, p := left - 1, p + 1;
    }
    return !crc32;
  }

  // ----- The check value ------------------------------------------------------

  lemma CheckStep(s: seq<byte>, c: byte, state: bv32, w: bv32, x: bv32, next: bv32)
    requires RunBits(PRESET, MessageBits(s)) == state
    requires ToWord(8, c as int) == w && state ^ w == x && Shifts(8, x) == next
    ensures RunBits(PRESET, MessageBits(s + [c])) == next
  {
    hide RunBits, MessageBits, Shifts, ToWord;
    RegisterComposes(PRESET, s, [c]);
    RegisterStep(state, c);
  }

  lemma CheckShifts()
    ensures Shifts(8, 0xffffffce) == 0x7c231048
    ensures Shifts(8, 0x7c23107a) == 0xb0acbb32
    ensures Shifts(8, 0xb0acbb01) == 0x77b79c2d
    ensures Shifts(8, 0x77b79c19) == 0x641c1f5c
    ensures Shifts(8, 0x641c1f69) == 0x340ac5e3
    ensures Shifts(8, 0x340ac5d5) == 0xf68d2c9e
    ensures Shifts(8, 0xf68d2ca9) == 0xaffc9660
    ensures Shifts(8, 0xaffc9658) == 0x651f2550
    ensures Shifts(8, 0x651f2569) == 0x340bc6d9
  {
  }

  lemma CheckWords()
    ensures ToWord(8, 0x31) == 0x31
    ensures ToWord(8, 0x32) == 0x32
    ensures ToWord(8, 0x33) == 0x33
    ensures ToWord(8, 0x34) == 0x34
    ensures ToWord(8, 0x35) == 0x35
    ensures ToWord(8, 0x36) == 0x36
    ensures ToWord(8, 0x37) == 0x37
    ensures ToWord(8, 0x38) == 0x38
    ensures ToWord(8, 0x39) == 0x39
  {
    assert ToWord(4, 3) == 3;
    assert ToWord(5, 6) == 6 && ToWord(5, 7) == 7;
    assert ToWord(6, 12) == 12 && ToWord(6, 13) == 13 && ToWord(6, 14) == 14;
    assert ToWord(7, 24) == 24 && ToWord(7, 25) == 25 && ToWord(7, 26) == 26;
    assert ToWord(7, 27) == 27 && ToWord(7, 28) == 28;
  }

  lemma NothingRuns(state: bv32)
    ensures RunBits(state, MessageBits("")) == state
  {
  }

  /** The value that every description of this CRC gives for the digits 1 to 9. */
  lemma CheckValue()
    ensures Crc("123456789") == 0xcbf4_3926
  {
    CheckShifts();
    CheckWords();
    NothingRuns(PRESET);
    hide RunBits, MessageBits, Shifts, Shift, ToWord;
    CheckStep("", '1', 0xffffffff, 0x31, 0xffffffce, 0x7c231048);
    assert "" + ['1'] == "1";
    CheckStep("1", '2', 0x7c231048, 0x32, 0x7c23107a, 0xb0acbb32);
    assert "1" + ['2'] == "12";
    CheckStep("12", '3', 0xb0acbb32, 0x33, 0xb0acbb01, 0x77b79c2d);
    assert "12" + ['3'] == "123";
    CheckStep("123", '4', 0x77b79c2d, 0x34, 0x77b79c19, 0x641c1f5c);
    assert "123" + ['4'] == "1234";
    CheckStep("1234", '5', 0x641c1f5c, 0x35, 0x641c1f69, 0x340ac5e3);
    assert "1234" + ['5'] == "12345";
    CheckStep("12345", '6', 0x340ac5e3, 0x36, 0x340ac5d5, 0xf68d2c9e);
    assert "12345" + ['6'] == "123456";
    CheckStep("123456", '7', 0xf68d2c9e, 0x37, 0xf68d2ca9, 0xaffc9660);
    assert "123456" + ['7'] == "1234567";
    CheckStep("1234567", '8', 0xaffc9660, 0x38, 0xaffc9658, 0x651f2550);
    assert "1234567" + ['8'] == "12345678";
    CheckStep("12345678", '9', 0x651f2550, 0x39, 0x651f2569, 0x340bc6d9);
    assert "12345678" + ['9'] == "123456789";
  }

  // ----- Words in memory ------------------------------------------------------

  function LowOctet(w: bv32): byte {
    WordRoundTrip(8, w);
    assert Pow2(8) == 256;
    FromWord(8, w) as char
  }

  /** How a word is stored: lowest octet first. */
  function StoreWord(w: bv32): (r: seq<byte>)
    ensures |r| == 4
  {
    [LowOctet(w), LowOctet(w >> 8), LowOctet(w >> 16), LowOctet(w >> 24)]
  }

  function LoadWord(s: seq<byte>): bv32
    requires |s| >= 4
  {
    ToWord(8, s[0] as int) | (ToWord(8, s[1] as int) << 8)
    | (ToWord(8, s[2] as int) << 16) | (ToWord(8, s[3] as int) << 24)
  }

  lemma LowOctetBits(w: bv32)
    ensures ToWord(8, LowOctet(w) as int) == w & 0xff
  {
    hide ToWord, FromWord;
    WordRoundTrip(8, w);
    SplitOctet(w);
  }

  /** Four octets hold a word: the lowest octet of the word comes first. */
  predicate LowFirst(s: seq<byte>, w: bv32) {
    && |s| == 4
    && ToWord(8, s[0] as int) == w & 0xff && ToWord(8, s[1] as int) == (w >> 8) & 0xff
    && ToWord(8, s[2] as int) == (w >> 16) & 0xff && ToWord(8, s[3] as int) == (w >> 24) & 0xff
  }

  lemma StoredLowFirst(w: bv32)
    ensures LowFirst(StoreWord(w), w)
  {
    hide ToWord, FromWord, LowOctet;
    LowOctetBits(w);
    LowOctetBits(w >> 8);
    LowOctetBits(w >> 16);
    LowOctetBits(w >> 24);
  }

  lemma OctetFits(c: byte)
    ensures ToWord(8, c as int) & 0xffff_ff00 == 0
  {
    ToWordFits(8, c as int);
    hide ToWord;
    OctetHalves(ToWord(8, c as int));
  }

  lemma SplitJoined(a: bv32, b: bv32, c: bv32, d: bv32)
    requires a & 0xffff_ff00 == 0 && b & 0xffff_ff00 == 0 && c & 0xffff_ff00 == 0 && d & 0xffff_ff00 == 0
    ensures var w := a | (b << 8) | (c << 16) | (d << 24);
            w & 0xff == a && (w >> 8) & 0xff == b && (w >> 16) & 0xff == c && (w >> 24) & 0xff == d
  {
  }

  lemma LoadIsLowFirst(s: seq<byte>)
    requires |s| == 4
    ensures LowFirst(s, LoadWord(s))
  {
    hide ToWord;
    OctetFits(s[0]);
    OctetFits(s[1]);
    OctetFits(s[2]);
    OctetFits(s[3]);
    SplitJoined(ToWord(8, s[0] as int), ToWord(8, s[1] as int), ToWord(8, s[2] as int), ToWord(8, s[3] as int));
  }

  lemma OneLowFirst(s: seq<byte>, v: bv32, w: bv32)
    requires LowFirst(s, v) && LowFirst(s, w)
    ensures v == w
  {
    hide ToWord;
    JoinOctets(v);
    JoinOctets(w);
  }

  /** Four octets load as the word that they hold, and as no other. */
  lemma LoadedLowFirst(s: seq<byte>, w: bv32)
    requires |s| == 4
    ensures LowFirst(s, w) <==> LoadWord(s) == w
  {
    hide LoadWord, LowFirst;
    LoadIsLowFirst(s);
    if LowFirst(s, w) {
      OneLowFirst(s, w, LoadWord(s));
    }
  }

  lemma JoinOctets(w: bv32)
    ensures (w & 0xff) | (((w >> 8) & 0xff) << 8) | (((w >> 16) & 0xff) << 16) | (((w >> 24) & 0xff) << 24) == w
  {
  }

  lemma LoadStored(w: bv32)
    ensures LoadWord(StoreWord(w)) == w
  {
    hide ToWord, FromWord, LowOctet;
    LowOctetBits(w);
    LowOctetBits(w >> 8);
    LowOctetBits(w >> 16);
    LowOctetBits(w >> 24);
    JoinOctets(w);
  }
}
