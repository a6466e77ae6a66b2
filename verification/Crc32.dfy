/**
 The bitwise CRC-32 of subsys/coredump/coredump.c (the reflected polynomial of clause 3.2.9 of
 IEEE Std 802.3), and what it can tell apart.
 */
module Crc32 {

  const POLY: bv32 := 0xEDB8_8320

  function Xor(a: bv32, b: bv32): bv32 { a ^ b }

  /** One bit: `(crc >> 1) ^ (POLY & -(crc & 1))` */
  function Shift(c: bv32): bv32
  {
    (c >> 1) ^ (POLY & (0 - (c & 1)))
  }

  /** `n` bits */
  function Shifts(c: bv32, n: nat): bv32
    decreases n
  {
    if n == 0 then c else Shifts(Shift(c), n - 1)
  }

  function Byte(b: bv8): bv32 { b as bv32 }

  /** One byte */
  function Absorb(c: bv32, b: bv8): bv32
  {
    Shifts(Xor(c, Byte(b)), 8)
  }

  function AbsorbAll(c: bv32, data: seq<bv8>): bv32
    decreases |data|
  {
    if data == [] then c else AbsorbAll(Absorb(c, data[0]), data[1..])
  }

  function Not(c: bv32): bv32 { !c }

  /** What `crc32_update` computes */
  function Crc(crc: bv32, data: seq<bv8>): bv32
  {
    Not(AbsorbAll(Not(crc), data))
  }

  /** `crc32_update` */
  method Update(crc: bv32, data: seq<bv8>) returns (r: bv32)
    ensures r == Crc(crc, data)
  {
    hide Shift, Not, Xor, Byte;
    r := Not(crc);
    var k := 0;
    while k < |data|
      invariant k <= |data|
      invariant AbsorbAll(r, data[k..]) == AbsorbAll(Not(crc), data)
    {
      ghost var c := r;
      r := Xor(r, Byte(data[k]));
      for i := 0 to 8
        invariant Shifts(r, 8 - i) == Absorb(c, data[k])
      {
        r := Shift(r);
      }
      assert data[k..][1..] == data[k + 1..];
      k := k + 1;
    }
    r := Not(r);
  }

  // ---------- in pieces ----------

  lemma {:induction false} AbsorbPieces(c: bv32, a: seq<bv8>, b: seq<bv8>)
    ensures AbsorbAll(c, a + b) == AbsorbAll(AbsorbAll(c, a), b)
    decreases |a|
  {
    hide Absorb;
    if a == [] {
      assert a + b == b;
    } else {
      assert (a + b)[1..] == a[1..] + b;
      AbsorbPieces(Absorb(c, a[0]), a[1..], b);
    }
  }

  lemma NotNot(c: bv32)
    ensures Not(Not(c)) == c
  {
  }

  /** A checksum may be computed piece by piece. */
  lemma CrcInPieces(crc: bv32, a: seq<bv8>, b: seq<bv8>)
    ensures Crc(Crc(crc, a), b) == Crc(crc, a + b)
  {
    hide Not;
    AbsorbPieces(Not(crc), a, b);
    NotNot(AbsorbAll(Not(crc), a));
  }

  // ---------- known answer ----------

  function CheckInput(): seq<bv8>
  {
    [0x31, 0x32, 0x33, 0x34, 0x35, 0x36, 0x37, 0x38, 0x39]
  }

  lemma CheckFirst()
    ensures AbsorbAll(0xFFFF_FFFF, [0x31, 0x32, 0x33]) == 0x77B7_9C2D
  {
    var data: seq<bv8> := [0x31, 0x32, 0x33];
    assert data[1..] == [0x32, 0x33] && data[1..][1..] == [0x33] && data[1..][1..][1..] == [];
    assert Absorb(0xFFFF_FFFF, 0x31) == 0x7C23_1048;
    assert Absorb(0x7C23_1048, 0x32) == 0xB0AC_BB32;
    assert Absorb(0xB0AC_BB32, 0x33) == 0x77B7_9C2D;
  }

  lemma CheckSecond()
    ensures AbsorbAll(0x77B7_9C2D, [0x34, 0x35, 0x36]) == 0xF68D_2C9E
  {
    var data: seq<bv8> := [0x34, 0x35, 0x36];
    assert data[1..] == [0x35, 0x36] && data[1..][1..] == [0x36] && data[1..][1..][1..] == [];
    assert Absorb(0x77B7_9C2D, 0x34) == 0x641C_1F5C;
    assert Absorb(0x641C_1F5C, 0x35) == 0x340A_C5E3;
    assert Absorb(0x340A_C5E3, 0x36) == 0xF68D_2C9E;
  }

  lemma CheckThird()
    ensures AbsorbAll(0xF68D_2C9E, [0x37, 0x38, 0x39]) == 0x340B_C6D9
  {
    var data: seq<bv8> := [0x37, 0x38, 0x39];
    assert data[1..] == [0x38, 0x39] && data[1..][1..] == [0x39] && data[1..][1..][1..] == [];
    assert Absorb(0xF68D_2C9E, 0x37) == 0xAFFC_9660;
    assert Absorb(0xAFFC_9660, 0x38) == 0x651F_2550;
    assert Absorb(0x651F_2550, 0x39) == 0x340B_C6D9;
  }

  /** The check value of this CRC: the digits 1 to 9 give 0xCBF4_3926. */
  lemma CheckValue()
    ensures Crc(0, CheckInput()) == 0xCBF4_3926
  {
    hide AbsorbAll;
    CheckFirst();
    CheckSecond();
    CheckThird();
    var s := CheckInput();
    assert s[..3] == [0x31, 0x32, 0x33] && s[3..6] == [0x34, 0x35, 0x36] && s[6..] == [0x37, 0x38, 0x39];
    assert s == s[..3] + s[3..6] + s[6..];
    AbsorbPieces(0xFFFF_FFFF, s[..3] + s[3..6], s[6..]);
    AbsorbPieces(0xFFFF_FFFF, s[..3], s[3..6]);
    assert Not(0x340B_C6D9) == 0xCBF4_3926 && Not(0) == 0xFFFF_FFFF;
  }

  // ---------- one bit is reversible and linear ----------

  /** The step back of one bit: the polynomial has its top bit set, so the top bit tells which way the step went. */
  function Unshift(c: bv32): bv32
  {
    if c & 0x8000_0000 == 0 then c << 1 else ((c ^ POLY) << 1) | 1
  }

  lemma UnshiftShift(c: bv32)
    ensures Unshift(Shift(c)) == c
  {
  }

  lemma {:induction false} ShiftsInjective(x: bv32, y: bv32, n: nat)
    requires Shifts(x, n) == Shifts(y, n)
    ensures x == y
    decreases n
  {
    hide Shift, Unshift;
    if n > 0 {
      ShiftsInjective(Shift(x), Shift(y), n - 1);
      UnshiftShift(x);
      UnshiftShift(y);
    }
  }

  function Half(c: bv32): bv32 { c >> 1 }

  predicate Odd(c: bv32) { c & 1 == 1 }

  lemma ShiftCases(c: bv32)
    ensures Shift(c) == if Odd(c) then Xor(Half(c), POLY) else Half(c)
  {
    LowBit(c);
    if Odd(c) {
      assert c & 1 == 1;
    } else {
      assert c & 1 == 0;
    }
  }

  lemma LowBit(c: bv32)
    ensures c & 1 == 0 || c & 1 == 1
  {
  }

  lemma Halves(x: bv32, y: bv32)
    ensures Half(Xor(x, y)) == Xor(Half(x), Half(y))
    ensures Odd(Xor(x, y)) <==> Odd(x) != Odd(y)
  {
  }

  lemma XorAssociative(a: bv32, b: bv32, c: bv32)
    ensures Xor(Xor(a, b), c) == Xor(a, Xor(b, c))
  {
  }

  lemma XorCommutes(a: bv32, b: bv32)
    ensures Xor(a, b) == Xor(b, a)
  {
  }

  lemma XorSelf(a: bv32, b: bv32)
    ensures Xor(Xor(a, b), b) == a
  {
  }

  lemma Regroup(a: bv32, b: bv32, p: bv32)
    ensures Xor(Xor(a, b), p) == Xor(Xor(a, p), b) == Xor(a, Xor(b, p))
    ensures Xor(Xor(a, p), Xor(b, p)) == Xor(a, b)
  {
    hide Xor;
    XorAssociative(a, b, p);
    XorAssociative(a, p, b);
    XorCommutes(b, p);
    XorAssociative(Xor(a, p), p, b);
    XorSelf(a, p);
  }

  lemma ShiftLinear(x: bv32, y: bv32)
    ensures Shift(Xor(x, y)) == Xor(Shift(x), Shift(y))
  {
    hide Shift, Xor, Half, Odd;
    ShiftCases(Xor(x, y));
    ShiftCases(x);
    ShiftCases(y);
    Halves(x, y);
    Regroup(Half(x), Half(y), POLY);
  }

  lemma {:induction false} ShiftsLinear(x: bv32, y: bv32, n: nat)
    ensures Shifts(Xor(x, y), n) == Xor(Shifts(x, n), Shifts(y, n))
    decreases n
  {
    hide Shift, Xor;
    if n > 0 {
      ShiftLinear(x, y);
      ShiftsLinear(Shift(x), Shift(y), n - 1);
    }
  }

  lemma {:induction false} ShiftsAdd(c: bv32, m: nat, n: nat)
    ensures Shifts(c, m + n) == Shifts(Shifts(c, m), n)
    decreases m
  {
    hide Shift;
    if m > 0 {
      ShiftsAdd(Shift(c), m - 1, n);
    }
  }

  lemma XorCancel(x: bv32, y: bv32, z: bv32)
    requires Xor(x, z) == Xor(y, z)
    ensures x == y
  {
  }

  // ---------- one byte is reversible ----------

  /** A byte step loses nothing of the state. */
  lemma AbsorbInjective(c: bv32, d: bv32, b: bv8)
    requires Absorb(c, b) == Absorb(d, b)
    ensures c == d
  {
    hide Shifts, Xor;
    ShiftsInjective(Xor(c, Byte(b)), Xor(d, Byte(b)), 8);
    XorCancel(c, d, Byte(b));
  }

  lemma {:induction false} AbsorbAllInjective(c: bv32, d: bv32, data: seq<bv8>)
    requires AbsorbAll(c, data) == AbsorbAll(d, data)
    ensures c == d
    decreases |data|
  {
    hide Absorb;
    if data != [] {
      AbsorbAllInjective(Absorb(c, data[0]), Absorb(d, data[0]), data[1..]);
      AbsorbInjective(c, d, data[0]);
    }
  }

  // ---------- four bytes are reversible ----------

  function Up8(x: bv32): bv32 { x << 8 }

  /** Up to four bytes as a little-endian word */
  function Word(bytes: seq<bv8>): bv32
    decreases |bytes|
  {
    if bytes == [] then 0 else Xor(Byte(bytes[0]), Up8(Word(bytes[1..])))
  }

  /** The value takes at most `n` bytes. */
  predicate Fits(x: bv32, n: nat)
  {
    if n == 0 then x == 0
    else if n == 1 then x < 0x100
    else if n == 2 then x < 0x1_0000
    else n == 3 ==> x < 0x100_0000
  }

  lemma FitsMore(x: bv32, b: bv8, n: nat)
    requires Fits(x, n)
    ensures Fits(Xor(Byte(b), Up8(x)), n + 1)
  {
  }

  lemma FitsThree(x: bv32, n: nat)
    requires Fits(x, n) && n <= 3
    ensures Fits(x, 3)
  {
  }

  lemma {:induction false} WordFits(bytes: seq<bv8>)
    ensures Fits(Word(bytes), |bytes|)
    decreases |bytes|
  {
    if bytes != [] {
      hide Xor, Byte, Up8, Fits;
      WordFits(bytes[1..]);
      FitsMore(Word(bytes[1..]), bytes[0], |bytes| - 1);
    }
  }

  /** Eight bit steps take a byte's worth of zeros away. */
  lemma EightBack(x: bv32)
    requires Fits(x, 3)
    ensures Shifts(Up8(x), 8) == x
  {
  }

  /** Absorbing up to four bytes is absorbing their word. */
  lemma {:induction false} AbsorbWord(c: bv32, bytes: seq<bv8>)
    requires |bytes| <= 4
    ensures AbsorbAll(c, bytes) == Shifts(Xor(c, Word(bytes)), 8 * |bytes|)
    decreases |bytes|
  {
    hide Xor, Byte, Up8, Shifts, Fits;
    if bytes == [] {
      XorZero(c);
      ShiftsNone(c);
    } else {
      var b, w := Byte(bytes[0]), Word(bytes[1..]);
      WordFits(bytes[1..]);
      FitsThree(w, |bytes| - 1);
      AbsorbWord(Absorb(c, bytes[0]), bytes[1..]);
      EightBack(w);
      ShiftsLinear(Xor(c, b), Up8(w), 8);
      XorAssociative(c, b, Up8(w));
      ShiftsAdd(Xor(c, Word(bytes)), 8, 8 * (|bytes| - 1));
    }
  }

  lemma XorZero(c: bv32)
    ensures Xor(c, 0) == c
  {
  }

  lemma ShiftsNone(c: bv32)
    ensures Shifts(c, 0) == c
  {
  }

  lemma ByteSplits(a: bv8, b: bv8, x: bv32, y: bv32)
    requires Fits(x, 3) && Fits(y, 3) && Xor(Byte(a), Up8(x)) == Xor(Byte(b), Up8(y))
    ensures a == b && x == y
  {
  }

  lemma {:induction false} WordInjective(a: seq<bv8>, b: seq<bv8>)
    requires |a| == |b| <= 4 && Word(a) == Word(b)
    ensures a == b
    decreases |a|
  {
    hide Xor, Byte, Up8, Fits;
    if a != [] {
      WordFits(a[1..]);
      WordFits(b[1..]);
      FitsThree(Word(a[1..]), |a| - 1);
      FitsThree(Word(b[1..]), |b| - 1);
      ByteSplits(a[0], b[0], Word(a[1..]), Word(b[1..]));
      WordInjective(a[1..], b[1..]);
      assert a == [a[0]] + a[1..] && b == [b[0]] + b[1..];
    }
  }

  // ---------- what the checksum tells apart ----------

  /** Any change confined to four consecutive bytes changes the checksum, for every length and position. */
  lemma BurstChangesCrc(crc: bv32, before: seq<bv8>, x: seq<bv8>, y: seq<bv8>, after: seq<bv8>)
    requires |x| == |y| <= 4 && x != y
    ensures Crc(crc, before + x + after) != Crc(crc, before + y + after)
  {
    hide Not, Xor, Shifts;
    if Crc(crc, before + x + after) == Crc(crc, before + y + after) {
      SameCrcSameBurst(crc, before, x, y, after);
    }
  }

  lemma SameCrcSameBurst(crc: bv32, before: seq<bv8>, x: seq<bv8>, y: seq<bv8>, after: seq<bv8>)
    requires |x| == |y| <= 4
    requires Crc(crc, before + x + after) == Crc(crc, before + y + after)
    ensures x == y
  {
    hide Not, Xor, Shifts, Word, Absorb;
    var c := AbsorbAll(Not(crc), before);
    NotNot(AbsorbAll(Not(crc), before + x + after));
    NotNot(AbsorbAll(Not(crc), before + y + after));
    AbsorbPieces(Not(crc), before + x, after);
    AbsorbPieces(Not(crc), before + y, after);
    AbsorbPieces(Not(crc), before, x);
    AbsorbPieces(Not(crc), before, y);
    AbsorbAllInjective(AbsorbAll(c, x), AbsorbAll(c, y), after);
    AbsorbWord(c, x);
    AbsorbWord(c, y);
    ShiftsInjective(Xor(c, Word(x)), Xor(c, Word(y)), 8 * |x|);
    XorCommutes(c, Word(x));
    XorCommutes(c, Word(y));
    XorCancel(Word(x), Word(y), c);
    WordInjective(x, y);
  }

  // ---------- bursts of bits ----------

  /** The top `k` bits are zero. */
  predicate HighZero(x: bv32, k: nat)
    decreases k
  {
    k == 0 || (TopClear(x) && HighZero(Twice(x), k - 1))
  }

  /** The low `k` bits are zero. */
  predicate LowZero(x: bv32, k: nat)
    decreases k
  {
    k == 0 || (!Odd(x) && LowZero(Half(x), k - 1))
  }

  predicate TopClear(x: bv32) { x & 0x8000_0000 == 0 }

  function Twice(x: bv32): bv32 { x << 1 }

  /** `x << k` and `x >> k`, bit by bit */
  function UpBy(x: bv32, k: nat): bv32
    decreases k
  {
    if k == 0 then x else UpBy(Twice(x), k - 1)
  }

  function DownBy(x: bv32, k: nat): bv32
    decreases k
  {
    if k == 0 then x else DownBy(Half(x), k - 1)
  }

  lemma TwiceBack(x: bv32)
    requires TopClear(x)
    ensures Shift(Twice(x)) == x
  {
  }

  lemma HalfBack(x: bv32)
    requires !Odd(x)
    ensures Twice(Half(x)) == x && TopClear(Half(x))
  {
  }

  /** Bit steps undo a shift that loses nothing. */
  lemma {:induction false} ShiftsUp(x: bv32, k: nat)
    requires HighZero(x, k)
    ensures Shifts(UpBy(x, k), k) == x
    decreases k
  {
    hide Shift, Twice, TopClear;
    if k > 0 {
      ShiftsUp(Twice(x), k - 1);
      ShiftsAdd(UpBy(x, k), k - 1, 1);
      assert Shifts(Twice(x), 1) == Shifts(Shift(Twice(x)), 0);
      TwiceBack(x);
    }
  }

  lemma {:induction false} UpLast(x: bv32, k: nat)
    ensures UpBy(x, k + 1) == Twice(UpBy(x, k))
    decreases k
  {
    hide Twice;
    if k > 0 {
      UpLast(Twice(x), k - 1);
    }
  }

  lemma {:induction false} HighMore(x: bv32, m: nat, k: nat)
    ensures HighZero(x, m) && HighZero(UpBy(x, m), k) <==> HighZero(x, m + k)
    decreases m
  {
    hide Twice, TopClear;
    if m > 0 {
      HighMore(Twice(x), m - 1, k);
    }
  }

  /** A word with zeros below is something shifted up. */
  lemma {:induction false} DownUp(x: bv32, k: nat)
    requires LowZero(x, k)
    ensures UpBy(DownBy(x, k), k) == x && HighZero(DownBy(x, k), k)
    decreases k
  {
    hide Twice, TopClear, Half, Odd;
    if k > 0 {
      DownUp(Half(x), k - 1);
      HalfBack(x);
      var y := DownBy(x, k);
      UpLast(y, k - 1);
      HighMore(y, k - 1, 1);
      assert HighZero(Half(x), 1) by {
        assert HighZero(Twice(Half(x)), 0);
      }
    }
  }

  function Up4(x: bv32): bv32 { x << 4 }

  predicate NoNibble(x: bv32) { x < 0x1000_0000 }

  lemma Nibble(x: bv32)
    ensures TopClear(x) && TopClear(Twice(x)) && TopClear(Twice(Twice(x))) && TopClear(Twice(Twice(Twice(x)))) ==>
            NoNibble(x)
    ensures Twice(Twice(Twice(Twice(x)))) == Up4(x)
  {
  }

  lemma HighNibble(x: bv32, k: nat)
    requires HighZero(x, 4 + k)
    ensures NoNibble(x) && HighZero(Up4(x), k)
  {
    hide Twice, TopClear, Up4, NoNibble;
    assert HighZero(Twice(x), 3 + k) && HighZero(Twice(Twice(x)), 2 + k) && HighZero(Twice(Twice(Twice(x))), 1 + k);
    Nibble(x);
  }

  lemma FourNibbles(x: bv32)
    requires NoNibble(x) && NoNibble(Up4(x)) && NoNibble(Up4(Up4(x))) && NoNibble(Up4(Up4(Up4(x))))
    ensures x < 0x1_0000 && Up4(Up4(Up4(Up4(x)))) == x << 16
  {
  }

  lemma TwoHalves(x: bv32)
    requires x < 0x1_0000 && x << 16 < 0x1_0000
    ensures x == 0
  {
  }

  lemma HighHalf(x: bv32, k: nat)
    requires HighZero(x, 16 + k)
    ensures x < 0x1_0000 && HighZero(x << 16, k)
  {
    hide HighZero, Up4, NoNibble;
    HighNibble(x, 12 + k);
    HighNibble(Up4(x), 8 + k);
    HighNibble(Up4(Up4(x)), 4 + k);
    HighNibble(Up4(Up4(Up4(x))), k);
    FourNibbles(x);
  }

  lemma AllZero(x: bv32)
    requires HighZero(x, 32)
    ensures x == 0
  {
    hide HighZero;
    HighHalf(x, 16);
    HighHalf(x << 16, 0);
    TwoHalves(x);
  }

  /**
   The polynomial has no multiple shorter than itself: `k` bits that are stepped through leave no
   remainder of 32 - k bits but zero.
   */
  lemma NoShortMultiple(x: bv32, d: bv32, k: nat)
    requires k <= 32 && HighZero(x, 32 - k) && HighZero(d, k) && Shifts(x, k) == d
    ensures x == 0 && d == 0
  {
    hide HighZero, Shifts, UpBy;
    ShiftsUp(d, k);
    ShiftsInjective(x, UpBy(d, k), k);
    HighMore(d, k, 32 - k);
    AllZero(d);
    ZeroUp(k);
  }

  lemma {:induction false} ZeroUp(k: nat)
    ensures UpBy(0, k) == 0
    decreases k
  {
    if k > 0 {
      assert Twice(0) == 0;
      ZeroUp(k - 1);
    }
  }

  /** Two inputs that differ by `e` before some bit steps differ by its steps afterwards. */
  lemma StepsDiffer(c: bv32, x: bv32, y: bv32, n: nat)
    ensures Xor(Shifts(Xor(c, x), n), Shifts(Xor(c, y), n)) == Shifts(Xor(x, y), n)
  {
    hide Xor, Shifts;
    ShiftsLinear(Xor(c, x), Xor(c, y), n);
    XorCommutes(c, x);
    XorCommutes(c, y);
    Regroup(x, y, c);
  }

  lemma XorZeroEqual(x: bv32, y: bv32)
    ensures Xor(x, y) == 0 <==> x == y
  {
  }

  lemma {:induction false} LowXor(x: bv32, y: bv32, k: nat)
    requires LowZero(x, k) && LowZero(y, k)
    ensures LowZero(Xor(x, y), k)
    decreases k
  {
    hide Xor, Half, Odd;
    if k > 0 {
      Halves(x, y);
      LowXor(Half(x), Half(y), k - 1);
    }
  }

  lemma {:induction false} LowFewer(x: bv32, k: nat, j: nat)
    requires LowZero(x, k) && j <= k
    ensures LowZero(x, j)
    decreases j
  {
    hide Half, Odd;
    if j > 0 {
      LowFewer(Half(x), k - 1, j - 1);
    }
  }

  lemma EightHalves(x: bv32)
    ensures var y := Up8(x);
            && !Odd(y) && !Odd(Half(y)) && !Odd(Half(Half(y))) && !Odd(Half(Half(Half(y))))
            && !Odd(Half(Half(Half(Half(y)))))
            && !Odd(Half(Half(Half(Half(Half(y)))))) && !Odd(Half(Half(Half(Half(Half(Half(y)))))))
            && !Odd(Half(Half(Half(Half(Half(Half(Half(y))))))))
  {
  }

  lemma Up8Low(x: bv32, j: nat)
    requires j <= 8
    ensures LowZero(Up8(x), j)
  {
    hide Up8, Half, Odd;
    var y := Up8(x);
    EightHalves(x);
    var y2 := Half(Half(y));
    var y4 := Half(Half(y2));
    var y6 := Half(Half(y4));
    assert LowZero(Half(Half(y6)), 0);
    assert LowZero(Half(y6), 1);
    assert LowZero(y6, 2);
    assert LowZero(Half(y4), 3);
    assert LowZero(y4, 4);
    assert LowZero(Half(y2), 5);
    assert LowZero(y2, 6);
    assert LowZero(Half(y), 7);
    assert LowZero(y, 8);
    LowFewer(y, 8, j);
  }

  /** The words of byte sequences whose first bytes agree in their low `j` bits do so too. */
  lemma WordsAgreeLow(x: seq<bv8>, y: seq<bv8>, j: nat)
    requires 0 < |x| == |y| && j <= 8 && LowZero(Xor(Byte(x[0]), Byte(y[0])), j)
    ensures LowZero(Xor(Word(x), Word(y)), j)
  {
    hide Xor, Up8, LowZero, Byte;
    var a, b, p, q := Byte(x[0]), Byte(y[0]), Up8(Word(x[1..])), Up8(Word(y[1..]));
    Up8Low(Word(x[1..]), j);
    Up8Low(Word(y[1..]), j);
    LowXor(p, q, j);
    LowXor(Xor(a, b), Xor(p, q), j);
    Cross(a, p, b, q);
  }

  lemma Cross(a: bv32, p: bv32, b: bv32, q: bv32)
    ensures Xor(Xor(a, p), Xor(b, q)) == Xor(Xor(a, b), Xor(p, q))
  {
    hide Xor;
    XorAssociative(a, p, Xor(b, q));
    XorCommutes(p, Xor(b, q));
    XorAssociative(b, q, p);
    XorCommutes(q, p);
    XorAssociative(a, b, Xor(p, q));
  }

  /**
   Any burst of up to 32 bits changes the checksum, also one that begins at bit `j` of a byte and ends
   before bit `j` of the fifth.
   */
  lemma BitBurstChangesCrc(crc: bv32, before: seq<bv8>, x: seq<bv8>, y: seq<bv8>, after: seq<bv8>, j: nat)
    requires |x| == |y| == 5 && j <= 8 && LowZero(Xor(Byte(x[0]), Byte(y[0])), j)
    requires HighZero(Xor(Byte(x[4]), Byte(y[4])), 32 - j)
    ensures Crc(crc, before + x + after) == Crc(crc, before + y + after) <==> x == y
  {
    hide Not, Xor, Shifts, Word, Absorb, LowZero, HighZero, Byte;
    if Crc(crc, before + x + after) == Crc(crc, before + y + after) {
      var c := AbsorbAll(Not(crc), before);
      SameBefore(crc, before, x, y, after);
      FifthByte(c, x);
      FifthByte(c, y);
      var p, q := Shifts(Xor(c, Word(x[..4])), 32), Shifts(Xor(c, Word(y[..4])), 32);
      ShiftsInjective(Xor(p, Byte(x[4])), Xor(q, Byte(y[4])), 8);
      var e, d := Xor(Word(x[..4]), Word(y[..4])), Xor(Byte(x[4]), Byte(y[4]));
      StepsDiffer(c, Word(x[..4]), Word(y[..4]), 32);
      Balance(p, Byte(x[4]), q, Byte(y[4]));
      assert Shifts(e, 32) == d;
      WordsAgreeLow(x[..4], y[..4], j);
      SteppedDown(e, j, 32);
      NoShortMultiple(DownBy(e, j), d, 32 - j);
      ZeroUp(j);
      XorZeroEqual(Word(x[..4]), Word(y[..4]));
      XorZeroEqual(Byte(x[4]), Byte(y[4]));
      WordInjective(x[..4], y[..4]);
      ByteInjective(x[4], y[4]);
      assert x == x[..4] + [x[4]] && y == y[..4] + [y[4]];
    }
  }

  /** Stepping through a word with `j` zeros below is stepping through what is above them. */
  lemma SteppedDown(e: bv32, j: nat, n: nat)
    requires LowZero(e, j) && j <= n
    ensures UpBy(DownBy(e, j), j) == e && HighZero(DownBy(e, j), j) && Shifts(e, n) == Shifts(DownBy(e, j), n - j)
  {
    hide LowZero, HighZero, UpBy, DownBy, Shifts;
    DownUp(e, j);
    ShiftsUp(DownBy(e, j), j);
    ShiftsAdd(e, j, n - j);
  }

  lemma SameBefore(crc: bv32, before: seq<bv8>, x: seq<bv8>, y: seq<bv8>, after: seq<bv8>)
    requires Crc(crc, before + x + after) == Crc(crc, before + y + after)
    ensures AbsorbAll(AbsorbAll(Not(crc), before), x) == AbsorbAll(AbsorbAll(Not(crc), before), y)
  {
    hide Not, Absorb;
    NotNot(AbsorbAll(Not(crc), before + x + after));
    NotNot(AbsorbAll(Not(crc), before + y + after));
    AbsorbPieces(Not(crc), before + x, after);
    AbsorbPieces(Not(crc), before + y, after);
    AbsorbPieces(Not(crc), before, x);
    AbsorbPieces(Not(crc), before, y);
    AbsorbAllInjective(AbsorbAll(Not(crc), before + x), AbsorbAll(Not(crc), before + y), after);
  }

  lemma FifthByte(c: bv32, x: seq<bv8>)
    requires |x| == 5
    ensures AbsorbAll(c, x) == Shifts(Xor(Shifts(Xor(c, Word(x[..4])), 32), Byte(x[4])), 8)
  {
    hide Xor, Shifts, Word, Byte;
    assert x == x[..4] + [x[4]];
    AbsorbPieces(c, x[..4], [x[4]]);
    AbsorbWord(c, x[..4]);
    assert [x[4]][1..] == [];
  }

  lemma Balance(p: bv32, a: bv32, q: bv32, b: bv32)
    requires Xor(p, a) == Xor(q, b)
    ensures Xor(p, q) == Xor(a, b)
  {
    hide Xor;
    Cross(p, a, q, b);
    XorZeroEqual(Xor(p, a), Xor(q, b));
    XorZeroEqual(Xor(p, q), Xor(a, b));
  }

  lemma ByteInjective(a: bv8, b: bv8)
    requires Byte(a) == Byte(b)
    ensures a == b
  {
  }

  /** How two inputs that differ in their last bytes differ in their checksums */
  lemma LastBytesDiffer(crc: bv32, before: seq<bv8>, x: seq<bv8>, y: seq<bv8>)
    requires |x| == |y| <= 4
    ensures Xor(Crc(crc, before + x), Crc(crc, before + y)) == Shifts(Xor(Word(x), Word(y)), 8 * |x|)
  {
    hide Xor, Shifts, Word, Absorb, Not;
    var c := AbsorbAll(Not(crc), before);
    AbsorbPieces(Not(crc), before, x);
    AbsorbPieces(Not(crc), before, y);
    AbsorbWord(c, x);
    AbsorbWord(c, y);
    StepsDiffer(c, Word(x), Word(y), 8 * |x|);
    NotCancels(AbsorbAll(c, x), AbsorbAll(c, y));
  }

  /** Words of `n` bytes have nothing above them. */
  lemma WordsFit(x: seq<bv8>, y: seq<bv8>)
    requires |x| == |y| <= 4
    ensures HighZero(Xor(Word(x), Word(y)), 32 - 8 * |x|)
  {
    hide Xor, Word, Fits;
    WordFits(x);
    WordFits(y);
    FitsHigh(Word(x), Word(y), |x|);
  }

  lemma FitsHigh(x: bv32, y: bv32, n: nat)
    requires n <= 4 && Fits(x, n) && Fits(y, n)
    ensures HighZero(Xor(x, y), 32 - 8 * n)
  {
    hide HighZero, Up4, NoNibble, Xor, Fits;
    var z := Xor(x, y);
    XorFits(x, y, n);
    if n == 0 {
      OnlyZeroFits(z);
      ZeroHigh(32);
    } else if n == 1 {
      OneByteHigh(z);
    } else if n == 2 {
      TwoBytesHigh(z, 0);
    } else if n == 3 {
      ThreeBytesNibbles(z);
      TwoNibblesHigh(z, 0);
    } else {
      NoneHigh(z);
    }
  }

  lemma XorFits(x: bv32, y: bv32, n: nat)
    requires n <= 4 && Fits(x, n) && Fits(y, n)
    ensures Fits(Xor(x, y), n)
  {
  }

  lemma OnlyZeroFits(x: bv32)
    requires Fits(x, 0)
    ensures x == 0
  {
  }

  lemma ThreeBytesNibbles(x: bv32)
    requires Fits(x, 3)
    ensures NoNibble(x) && NoNibble(Up4(x))
  {
  }

  lemma NoneHigh(x: bv32)
    ensures HighZero(x, 0)
  {
  }

  lemma {:induction false} ZeroHigh(k: nat)
    ensures HighZero(0, k)
    decreases k
  {
    if k > 0 {
      assert Twice(0) == 0 && TopClear(0);
      ZeroHigh(k - 1);
    }
  }

  lemma NibbleClear(x: bv32)
    requires NoNibble(x)
    ensures TopClear(x) && TopClear(Twice(x)) && TopClear(Twice(Twice(x))) && TopClear(Twice(Twice(Twice(x))))
  {
  }

  lemma NibbleHigh(x: bv32, k: nat)
    requires NoNibble(x) && HighZero(Up4(x), k)
    ensures HighZero(x, 4 + k)
  {
    hide Twice, TopClear, Up4, NoNibble;
    Nibble(x);
    NibbleClear(x);
    assert HighZero(Twice(Twice(Twice(x))), 1 + k);
    assert HighZero(Twice(Twice(x)), 2 + k);
    assert HighZero(Twice(x), 3 + k);
  }

  lemma TwoNibblesHigh(x: bv32, k: nat)
    requires NoNibble(x) && NoNibble(Up4(x)) && (k == 0 || HighZero(Up4(Up4(x)), k))
    ensures HighZero(x, 8 + k)
  {
    hide HighZero, Up4, NoNibble;
    if k == 0 {
      NoneHigh(Up4(Up4(x)));
    }
    NibbleHigh(Up4(x), k);
    NibbleHigh(x, 4 + k);
  }

  lemma TwoBytesNibbles(x: bv32)
    requires Fits(x, 2) || Fits(x, 1)
    ensures NoNibble(x) && NoNibble(Up4(x)) && NoNibble(Up4(Up4(x))) && NoNibble(Up4(Up4(Up4(x))))
    ensures Fits(x, 1) ==> NoNibble(Up4(Up4(Up4(Up4(x))))) && NoNibble(Up4(Up4(Up4(Up4(Up4(x))))))
  {
  }

  lemma TwoBytesHigh(x: bv32, k: nat)
    requires (Fits(x, 2) || Fits(x, 1)) && (k == 0 || HighZero(Up4(Up4(Up4(Up4(x)))), k))
    ensures HighZero(x, 16 + k)
  {
    hide HighZero, Up4, NoNibble, Fits;
    TwoBytesNibbles(x);
    TwoNibblesHigh(Up4(Up4(x)), k);
    TwoNibblesHigh(x, 8 + k);
  }

  lemma OneByteHigh(x: bv32)
    requires Fits(x, 1)
    ensures HighZero(x, 24)
  {
    hide HighZero, Up4, NoNibble, Fits;
    TwoBytesNibbles(x);
    TwoNibblesHigh(Up4(Up4(Up4(Up4(x)))), 0);
    TwoBytesHigh(x, 8);
  }

  lemma NotCancels(x: bv32, y: bv32)
    ensures Xor(Not(x), Not(y)) == Xor(x, y)
  {
  }

  // ---------- and what it cannot ----------

  function Bytes(w: bv32): (bytes: seq<bv8>)
    ensures |bytes| == 4
  {
    [(w & 0xFF) as bv8, ((w >> 8) & 0xFF) as bv8, ((w >> 16) & 0xFF) as bv8, ((w >> 24) & 0xFF) as bv8]
  }

  lemma FourBytes(w: bv32, x: bv8, y: bv8, z: bv8, u: bv8)
    requires x == (w & 0xFF) as bv8 && y == ((w >> 8) & 0xFF) as bv8
    requires z == ((w >> 16) & 0xFF) as bv8 && u == ((w >> 24) & 0xFF) as bv8
    ensures Xor(Byte(x), Up8(Xor(Byte(y), Up8(Xor(Byte(z), Up8(Xor(Byte(u), Up8(0)))))))) == w
  {
  }

  lemma WordOfBytes(w: bv32)
    ensures Word(Bytes(w)) == w
  {
    hide Xor, Byte, Up8;
    var b := Bytes(w);
    assert Word(b[4..]) == 0;
    assert b[3..][1..] == b[4..] && b[2..][1..] == b[3..] && b[1..][1..] == b[2..];
    assert Word(b[3..]) == Xor(Byte(b[3]), Up8(0));
    assert Word(b[2..]) == Xor(Byte(b[2]), Up8(Word(b[3..])));
    assert Word(b[1..]) == Xor(Byte(b[1]), Up8(Word(b[2..])));
    FourBytes(w, b[0], b[1], b[2], b[3]);
  }

  /** Four bytes is the limit: in every place there are five-byte changes that leave the checksum as it was. */
  lemma FiveBytesCanCollide(crc: bv32, before: seq<bv8>, after: seq<bv8>) returns (x: seq<bv8>, y: seq<bv8>)
    ensures |x| == |y| == 5 && x != y
    ensures Crc(crc, before + x + after) == Crc(crc, before + y + after)
  {
    hide Not, Xor, Shifts, Word, Bytes, Absorb;
    var c := AbsorbAll(Not(crc), before);
    var p, q := Absorb(c, 0), Absorb(c, 1);
    x, y := [0] + Bytes(0), [1] + Bytes(Xor(p, q));
    assert x[0] != y[0];
    assert x[1..] == Bytes(0) && y[1..] == Bytes(Xor(p, q));
    WordOfBytes(0);
    WordOfBytes(Xor(p, q));
    AbsorbWord(p, Bytes(0));
    AbsorbWord(q, Bytes(Xor(p, q)));
    XorZero(p);
    XorCommutes(q, Xor(p, q));
    XorSelf(p, q);
    assert AbsorbAll(c, x) == AbsorbAll(c, y);
    AbsorbPieces(Not(crc), before + x, after);
    AbsorbPieces(Not(crc), before + y, after);
    AbsorbPieces(Not(crc), before, x);
    AbsorbPieces(Not(crc), before, y);
  }
}
