/** The 32-bit CRC of utility.cpp (the CRC of section 8 of RFC 1952).

    A machine word is an integer below 2^32; `c & 1`, `c >> k` and `c & 0xff` on it are `%` and `/`
    by a power of two, and `^` is the recursive function `Xor`.

    The reference definition is `Remainder`: long division of a bit sequence by the generator
    polynomial.  The table of the program, its update loop and the register it keeps are all
    proved against it. */
module Crc32 {

  const WORD: nat := 0x1_0000_0000
  const POLYNOMIAL: nat := 0xEDB8_8320
  const ALL_ONES: nat := 0xFFFF_FFFF

  const BYTE_BITS: nat := 8
  const WORD_BITS: nat := 32

  type Word = w: nat | w < WORD
  type Byte = b: nat | b < 256

  // ----- exclusive or -----

  function Xor(a: nat, b: nat): nat
    decreases a + b
  {
    if a == 0 && b == 0 then 0 else (if a % 2 == b % 2 then 0 else 1) + 2 * Xor(a / 2, b / 2)
  }

  function Pow2(k: nat): (p: nat)
    ensures p > 0
  {
    if k == 0 then 1 else 2 * Pow2(k - 1)
  }

  lemma Pow2At32()
    ensures Pow2(8) == 256 && Pow2(31) == 0x8000_0000 && Pow2(32) == WORD
  {
    Pow2By256(0);
    Pow2By256(8);
    Pow2By256(16);
    Pow2By256(24);
  }

  lemma {:induction false} XorZero(a: nat)
    ensures Xor(a, 0) == a == Xor(0, a)
    decreases a
  {
    if a > 0 { XorZero(a / 2); }
  }

  lemma {:induction false} XorSelf(a: nat)
    ensures Xor(a, a) == 0
    decreases a
  {
    if a > 0 { XorSelf(a / 2); }
  }

  lemma {:induction false} XorCommutes(a: nat, b: nat)
    ensures Xor(a, b) == Xor(b, a)
    decreases a + b
  {
    if a + b > 0 { XorCommutes(a / 2, b / 2); }
  }

  lemma {:induction false} XorAssociates(a: nat, b: nat, c: nat)
    ensures Xor(Xor(a, b), c) == Xor(a, Xor(b, c))
    decreases a + b + c
  {
    if a + b + c > 0 {
      XorAssociates(a / 2, b / 2, c / 2);
      var ab, bc := Xor(a, b), Xor(b, c);
      XorHalves(a, b);
      XorHalves(b, c);
      XorHalves(ab, c);
      XorHalves(a, bc);
    }
  }

  lemma XorJoins(a: nat, b: nat)
    ensures Xor(a, b) == (if a % 2 == b % 2 then 0 else 1) + 2 * Xor(a / 2, b / 2)
  {}

  lemma XorHalves(a: nat, b: nat)
    ensures Xor(a, b) / 2 == Xor(a / 2, b / 2)
    ensures Xor(a, b) % 2 == if a % 2 == b % 2 then 0 else 1
  {}

  lemma {:induction false} XorBound(a: nat, b: nat, k: nat)
    requires a < Pow2(k) && b < Pow2(k)
    ensures Xor(a, b) < Pow2(k)
    decreases k
  {
    if k > 0 { XorBound(a / 2, b / 2, k - 1); }
  }

  lemma XorWord(a: Word, b: Word)
    ensures Xor(a, b) < WORD
  {
    Pow2At32();
    XorBound(a, b, WORD_BITS);
  }

  lemma XorCancels(p: nat, a: nat, b: nat)
    requires Xor(p, a) == Xor(p, b)
    ensures a == b
  {
    XorAssociates(p, p, a);
    XorAssociates(p, p, b);
    XorSelf(p);
    XorZero(a);
    XorZero(b);
  }

  lemma XorSwap(a: nat, b: nat, c: nat, d: nat)
    ensures Xor(Xor(a, b), Xor(c, d)) == Xor(Xor(a, c), Xor(b, d))
  {
    XorAssociates(a, b, Xor(c, d));
    XorAssociates(b, c, d);
    XorCommutes(b, c);
    XorAssociates(c, b, d);
    XorAssociates(a, c, Xor(b, d));
  }

  // ----- the register, one bit at a time -----

  function BitStep(c: nat): nat {
    if c % 2 == 1 then Xor(POLYNOMIAL, c / 2) else c / 2
  }

  function BitSteps(c: nat, n: nat): nat
    decreases n
  {
    if n == 0 then c else BitSteps(BitStep(c), n - 1)
  }

  lemma FirstStep(c: nat, n: nat)
    requires n > 0
    ensures BitSteps(c, n) == BitSteps(BitStep(c), n - 1)
  {}

  lemma BitStepWord(c: Word)
    ensures BitStep(c) < WORD
  {
    XorWord(POLYNOMIAL, c / 2);
  }

  lemma {:induction false} BitStepsWord(c: Word, n: nat)
    ensures BitSteps(c, n) < WORD
    decreases n
  {
    if n > 0 {
      BitStepWord(c);
      BitStepsWord(BitStep(c), n - 1);
    }
  }

  lemma {:induction false} BitStepsCompose(c: nat, m: nat, n: nat)
    ensures BitSteps(BitSteps(c, m), n) == BitSteps(c, m + n)
    decreases m
  {
    if m > 0 { BitStepsCompose(BitStep(c), m - 1, n); }
  }

  function Feedback(c: nat): nat {
    if c % 2 == 1 then POLYNOMIAL else 0
  }

  lemma StepAsXor(c: nat)
    ensures BitStep(c) == Xor(Feedback(c), c / 2)
  {
    XorZero(c / 2);
  }

  lemma BitStepLinear(x: nat, y: nat)
    ensures BitStep(Xor(x, y)) == Xor(BitStep(x), BitStep(y))
  {
    var p, q := Feedback(x), Feedback(y);
    XorHalves(x, y);
    StepAsXor(x);
    StepAsXor(y);
    StepAsXor(Xor(x, y));
    XorSwap(p, x / 2, q, y / 2);
    assert Feedback(Xor(x, y)) == Xor(p, q) by {
      XorZero(POLYNOMIAL);
      XorZero(0);
      XorSelf(POLYNOMIAL);
    }
  }

  lemma {:induction false} BitStepsLinear(x: nat, y: nat, n: nat)
    ensures BitSteps(Xor(x, y), n) == Xor(BitSteps(x, n), BitSteps(y, n))
    decreases n
  {
    if n > 0 {
      BitStepLinear(x, y);
      BitStepsLinear(BitStep(x), BitStep(y), n - 1);
    }
  }

  // The top bit of the polynomial is set, so the register never forgets the bit it shifts out.
  lemma BitStepInjective(x: Word, y: Word)
    requires BitStep(x) == BitStep(y)
    ensures x == y
  {
    Pow2At32();
    if x % 2 == y % 2 {
      if x % 2 == 1 { XorCancels(POLYNOMIAL, x / 2, y / 2); }
    } else {
      var odd, even := if x % 2 == 1 then x else y, if x % 2 == 1 then y else x;
      XorAssociates(POLYNOMIAL, odd / 2, odd / 2);
      XorSelf(odd / 2);
      XorZero(POLYNOMIAL);
      XorBound(even / 2, odd / 2, 31);
      assert false;
    }
  }

  lemma {:induction false} BitStepsInjective(x: Word, y: Word, n: nat)
    requires BitSteps(x, n) == BitSteps(y, n)
    ensures x == y
    decreases n
  {
    if n > 0 {
      BitStepWord(x);
      BitStepWord(y);
      BitStepsInjective(BitStep(x), BitStep(y), n - 1);
      BitStepInjective(x, y);
    }
  }

  function ShiftLeft(x: nat, k: nat): nat {
    if k == 0 then x else 2 * ShiftLeft(x, k - 1)
  }

  lemma {:induction false} ShiftLeftIsProduct(x: nat, k: nat)
    ensures ShiftLeft(x, k) == x * Pow2(k)
    decreases k
  {
    if k > 0 { ShiftLeftIsProduct(x, k - 1); }
  }

  lemma ShiftLeftByte(x: nat)
    ensures ShiftLeft(x, BYTE_BITS) == 256 * x
  {
    ShiftLeftIsProduct(x, BYTE_BITS);
    Pow2At32();
  }

  lemma {:induction false} ShiftedOut(x: nat, k: nat)
    ensures BitSteps(ShiftLeft(x, k), k) == x
    decreases k
  {
    if k > 0 { ShiftedOut(x, k - 1); }
  }

  lemma {:induction false} XorOfDisjoint(lo: nat, hi: nat, k: nat)
    requires lo < Pow2(k)
    ensures Xor(lo, ShiftLeft(hi, k)) == lo + ShiftLeft(hi, k)
    decreases k
  {
    if k == 0 {
      XorZero(hi);
    } else {
      var s := ShiftLeft(hi, k - 1);
      XorOfDisjoint(lo / 2, hi, k - 1);
      XorJoins(lo, 2 * s);
    }
  }

  // `n` steps consume the `n` low bits of what is added to the register and only shift the others.
  lemma HighBitsPass(c: nat, x: nat, lo: nat, hi: nat, n: nat)
    requires lo < Pow2(n) && x == lo + ShiftLeft(hi, n)
    ensures BitSteps(Xor(c, x), n) == Xor(BitSteps(Xor(c, lo), n), hi)
  {
    var high := ShiftLeft(hi, n);
    XorOfDisjoint(lo, hi, n);
    XorAssociates(c, lo, high);
    BitStepsLinear(Xor(c, lo), high, n);
    ShiftedOut(hi, n);
  }

  // Enough steps to shift out a byte are those on the low byte, with the others shifted down.
  lemma StepsSplit(x: nat, n: nat)
    requires Pow2(n) == 256
    ensures BitSteps(x, n) == Xor(BitSteps(x % 256, n), x / 256)
  {
    var lo, hi := x % 256, x / 256;
    ShiftLeftIsProduct(hi, n);
    HighBitsPass(0, x, lo, hi, n);
    XorZero(x);
    XorZero(lo);
  }

  /** One look-up in the table does the work of eight single-bit steps. */
  lemma TableStep(x: nat)
    ensures BitSteps(x, BYTE_BITS) == Xor(BitSteps(x % 256, BYTE_BITS), x / 256)
  {
    Pow2At32();
    StepsSplit(x, BYTE_BITS);
  }

  // ----- a whole buffer -----

  // The register after the bytes of `buf`, eight single-bit steps for each byte.
  function Register(c: nat, buf: seq<Byte>): nat
    decreases |buf|
  {
    if buf == [] then c else Register(BitSteps(Xor(c, buf[0]), BYTE_BITS), buf[1..])
  }

  lemma {:induction false} RegisterWord(c: Word, buf: seq<Byte>)
    ensures Register(c, buf) < WORD
    decreases |buf|
  {
    if buf != [] {
      XorWord(c, buf[0]);
      BitStepsWord(Xor(c, buf[0]), BYTE_BITS);
      RegisterWord(BitSteps(Xor(c, buf[0]), BYTE_BITS), buf[1..]);
    }
  }

  lemma {:induction false} RegisterConcat(c: nat, a: seq<Byte>, b: seq<Byte>)
    ensures Register(c, a + b) == Register(Register(c, a), b)
    decreases |a|
  {
    if a == [] {
      assert a + b == b;
    } else {
      assert (a + b)[1..] == a[1..] + b;
      RegisterConcat(BitSteps(Xor(c, a[0]), BYTE_BITS), a[1..], b);
    }
  }

  // Equal bytes never make two different registers equal.
  lemma {:induction false} RegisterInjective(c: Word, d: Word, buf: seq<Byte>)
    requires Register(c, buf) == Register(d, buf)
    ensures c == d
    decreases |buf|
  {
    if buf != [] {
      var b := buf[0];
      XorWord(c, b);
      XorWord(d, b);
      BitStepsWord(Xor(c, b), BYTE_BITS);
      BitStepsWord(Xor(d, b), BYTE_BITS);
      RegisterInjective(BitSteps(Xor(c, b), BYTE_BITS), BitSteps(Xor(d, b), BYTE_BITS), buf[1..]);
      BitStepsInjective(Xor(c, b), Xor(d, b), BYTE_BITS);
      XorCommutes(c, b);
      XorCommutes(d, b);
      XorCancels(b, c, d);
    }
  }

  // The CRC of a text continued from the CRC `crc` of an earlier text.
  function Update(crc: Word, buf: seq<Byte>): (r: Word)
  {
    XorWord(crc, ALL_ONES);
    RegisterWord(Xor(crc, ALL_ONES), buf);
    XorWord(Register(Xor(crc, ALL_ONES), buf), ALL_ONES);
    Xor(Register(Xor(crc, ALL_ONES), buf), ALL_ONES)
  }

  lemma Reinverted(c: nat)
    ensures Xor(Xor(c, ALL_ONES), ALL_ONES) == c
  {
    XorAssociates(c, ALL_ONES, ALL_ONES);
    XorSelf(ALL_ONES);
    XorZero(c);
  }

  // Continuing a CRC is the same as starting again on the joined text.
  lemma UpdateConcat(crc: Word, a: seq<Byte>, b: seq<Byte>)
    ensures Update(Update(crc, a), b) == Update(crc, a + b)
  {
    var c := Xor(crc, ALL_ONES);
    Reinverted(Register(c, a));
    RegisterConcat(c, a, b);
  }

  // ----- bursts of at most four bytes -----

  function LittleEndian(bytes: seq<Byte>): nat
    decreases |bytes|
  {
    if bytes == [] then 0 else bytes[0] + 256 * LittleEndian(bytes[1..])
  }

  lemma {:induction false} LittleEndianBound(bytes: seq<Byte>)
    ensures LittleEndian(bytes) < Pow2(BYTE_BITS * |bytes|)
    decreases |bytes|
  {
    if bytes != [] {
      LittleEndianBound(bytes[1..]);
      Pow2By256(BYTE_BITS * |bytes[1..]|);
    }
  }

  lemma Pow2By256(k: nat)
    ensures Pow2(k + 8) == 256 * Pow2(k)
  {
    assert Pow2(k + 2) == 4 * Pow2(k);
    assert Pow2(k + 4) == 4 * Pow2(k + 2);
    assert Pow2(k + 6) == 4 * Pow2(k + 4);
  }

  lemma {:induction false} LittleEndianInjective(a: seq<Byte>, b: seq<Byte>)
    requires |a| == |b| && LittleEndian(a) == LittleEndian(b)
    ensures a == b
    decreases |a|
  {
    if a != [] {
      assert a[0] == b[0];
      LittleEndianInjective(a[1..], b[1..]);
      assert a == [a[0]] + a[1..] && b == [b[0]] + b[1..];
    }
  }

  // Four table steps are 32 bit steps on the register xor the little-endian word of the bytes.
  lemma {:induction false} RegisterAsWord(c: nat, bytes: seq<Byte>)
    ensures Register(c, bytes) == BitSteps(Xor(c, LittleEndian(bytes)), BYTE_BITS * |bytes|)
    decreases |bytes|
  {
    if bytes == [] {
      XorZero(c);
    } else {
      var b, rest, word := bytes[0], LittleEndian(bytes[1..]), LittleEndian(bytes);
      var c' := BitSteps(Xor(c, b), BYTE_BITS);
      RegisterAsWord(c', bytes[1..]);
      assert BitSteps(Xor(c, word), BYTE_BITS) == Xor(c', rest) by {
        Pow2At32();
        ShiftLeftByte(rest);
        HighBitsPass(c, word, b, rest, BYTE_BITS);
      }
      BitStepsCompose(Xor(c, word), BYTE_BITS, BYTE_BITS * |bytes[1..]|);
    }
  }

  lemma ShortRegisterInjective(c: Word, v: seq<Byte>, w: seq<Byte>)
    requires |v| == |w| <= 4
    requires Register(c, v) == Register(c, w)
    ensures v == w
  {
    Pow2At32();
    LittleEndianBound(v);
    LittleEndianBound(w);
    Pow2Monotone(BYTE_BITS * |v|, WORD_BITS);
    RegisterAsWord(c, v);
    RegisterAsWord(c, w);
    XorWord(c, LittleEndian(v));
    XorWord(c, LittleEndian(w));
    BitStepsInjective(Xor(c, LittleEndian(v)), Xor(c, LittleEndian(w)), BYTE_BITS * |v|);
    XorCancels(c, LittleEndian(v), LittleEndian(w));
    LittleEndianInjective(v, w);
  }

  lemma {:induction false} Pow2Monotone(j: nat, k: nat)
    requires j <= k
    ensures Pow2(j) <= Pow2(k)
    decreases k
  {
    if j < k { Pow2Monotone(j, k - 1); }
  }

  /** Two texts of equal length that differ, but only inside four consecutive bytes, have different
      CRCs, so they are counted under different keys. */
  lemma BurstDetected(crc: Word, pre: seq<Byte>, v: seq<Byte>, w: seq<Byte>, post: seq<Byte>)
    requires |v| == |w| <= 4 && v != w
    ensures Update(crc, pre + v + post) != Update(crc, pre + w + post)
  {
    var c := Xor(crc, ALL_ONES);
    XorWord(crc, ALL_ONES);
    RegisterWord(c, pre);
    var d := Register(c, pre);
    RegisterConcat(c, pre, v);
    RegisterConcat(c, pre, w);
    RegisterConcat(c, pre + v, post);
    RegisterConcat(c, pre + w, post);
    if Update(crc, pre + v + post) == Update(crc, pre + w + post) {
      Reinverted(Register(c, pre + v + post));
      Reinverted(Register(c, pre + w + post));
      RegisterWord(d, v);
      RegisterWord(d, w);
      RegisterInjective(Register(d, v), Register(d, w), post);
      ShortRegisterInjective(d, v, w);
      assert false;
    }
  }

  // ----- the reference: long division of polynomials over GF(2) -----

  // The low `n` bits of `c`, least significant first: the coefficients of a reflected polynomial
  // in descending powers.
  function Bits(c: nat, n: nat): (r: seq<bool>)
    ensures |r| == n
    decreases n
  {
    if n == 0 then [] else [c % 2 == 1] + Bits(c / 2, n - 1)
  }

  function MessageBits(buf: seq<Byte>): seq<bool>
    decreases |buf|
  {
    if buf == [] then [] else Bits(buf[0], BYTE_BITS) + MessageBits(buf[1..])
  }

  function Zeros(n: nat): seq<bool> {
    seq(n, _ => false)
  }

  function Not(s: seq<bool>): seq<bool> {
    seq(|s|, i requires 0 <= i < |s| => !s[i])
  }

  // `s` with its leading terms replaced by their sums with the terms of `t`.
  function AddLeading(s: seq<bool>, t: seq<bool>): (r: seq<bool>)
    requires |t| <= |s|
    ensures |r| == |s|
  {
    seq(|s|, i requires 0 <= i < |s| => if i < |t| then s[i] != t[i] else s[i])
  }

  // The remainder of the dividend `d` on division by x^n plus the lower terms `g`, n of them in descending
  // powers: as long as the dividend has more than n terms, cancel the leading one.
  function Remainder(d: seq<bool>, g: seq<bool>): (r: seq<bool>)
    requires |d| >= |g|
    ensures |r| == |g|
    decreases |d|
  {
    if |d| == |g| then d
    else if d[0] then Remainder(AddLeading(d[1..], g), g)
    else Remainder(d[1..], g)
  }

  // The generator polynomial of the CRC is the sum of x^32 and these powers of x.
  predicate Power(k: int) {
    || k == 26 || k == 23 || k == 22 || k == 16 || k == 12 || k == 11 || k == 10
    || k == 8 || k == 7 || k == 5 || k == 4 || k == 2 || k == 1 || k == 0
  }

  // The terms below x^n of a sum of powers, in descending powers.
  function Terms(power: int -> bool, n: nat): (r: seq<bool>)
    ensures |r| == n
  {
    seq(n, i requires 0 <= i < n => power(n - 1 - i))
  }

  // The same packed into a number, the highest power in the lowest bit.
  function Packed(power: int -> bool, n: nat): nat {
    if n == 0 then 0 else (if power(n - 1) then 1 else 0) + 2 * Packed(power, n - 1)
  }

  lemma BitsOfSum(b: bool, c: nat, n: nat)
    ensures Bits((if b then 1 else 0) + 2 * c, n + 1) == [b] + Bits(c, n)
  {}

  lemma {:induction false} BitsOfPacked(power: int -> bool, n: nat)
    ensures Bits(Packed(power, n), n) == Terms(power, n)
    decreases n
  {
    if n > 0 {
      var b, c := power(n - 1), Packed(power, n - 1);
      assert Terms(power, n) == [b] + Terms(power, n - 1);
      BitsOfPacked(power, n - 1);
      BitsOfSum(b, c, n - 1);
    }
  }

  // The constant of the program holds the coefficients of the generator.
  lemma PolynomialIsGenerator()
    ensures Bits(POLYNOMIAL, WORD_BITS) == Terms(Power, 32)
  {
    PackedPolynomial();
    BitsOfPacked(Power, 32);
  }

  lemma FourTerms(power: int -> bool, n: nat)
    ensures Packed(power, n + 4)
         == (if power(n + 3) then 1 else 0) + (if power(n + 2) then 2 else 0) + (if power(n + 1) then 4 else 0)
            + (if power(n) then 8 else 0) + 16 * Packed(power, n)
  {
    assert Packed(power, n + 2) == (if power(n + 1) then 1 else 0) + (if power(n) then 2 else 0) + 4 * Packed(power, n);
  }

  lemma LowerTerms()
    ensures Packed(Power, 16) == 0xEDB8
  {
    FourTerms(Power, 0);
    FourTerms(Power, 4);
    FourTerms(Power, 8);
    FourTerms(Power, 12);
  }

  lemma PackedPolynomial()
    ensures Packed(Power, 32) == POLYNOMIAL
  {
    LowerTerms();
    FourTerms(Power, 16);
    FourTerms(Power, 20);
    FourTerms(Power, 24);
    FourTerms(Power, 28);
  }

  lemma {:induction false} BitsOfXor(a: nat, b: nat, n: nat)
    ensures Bits(Xor(a, b), n) == AddLeading(Bits(a, n), Bits(b, n))
    decreases n
  {
    if n > 0 {
      XorHalves(a, b);
      BitsOfXor(a / 2, b / 2, n - 1);
    }
  }

  lemma {:induction false} BitsExtend(c: nat, n: nat)
    requires c < Pow2(n)
    ensures Bits(c, n + 1) == Bits(c, n) + [false]
    decreases n
  {
    if n > 0 { BitsExtend(c / 2, n - 1); }
  }

  lemma {:induction false} BitsOfOnes(k: nat)
    ensures Bits(Pow2(k) - 1, k) == Not(Zeros(k))
    decreases k
  {
    if k > 0 {
      var ones, half := Pow2(k) - 1, Pow2(k - 1) - 1;
      assert ones == 1 + 2 * half;
      BitsOfOnes(k - 1);
      assert Bits(ones, k) == [true] + Bits(half, k - 1);
      assert Not(Zeros(k)) == [true] + Not(Zeros(k - 1));
    }
  }

  lemma BitsInverted(c: Word)
    ensures Bits(Xor(c, ALL_ONES), WORD_BITS) == Not(Bits(c, WORD_BITS))
  {
    Pow2At32();
    BitsOfXor(c, ALL_ONES, WORD_BITS);
    BitsOfOnes(WORD_BITS);
  }

  // Feeding one message bit: the register after it.
  function FeedBit(c: nat, b: bool): nat {
    BitStep(Xor(c, if b then 1 else 0))
  }

  function FeedBits(c: nat, bits: seq<bool>): nat
    decreases |bits|
  {
    if bits == [] then c else FeedBits(FeedBit(c, bits[0]), bits[1..])
  }

  // Eight steps on register xor byte feed the eight bits of the byte one after the other.
  lemma {:induction false} StepsFeedBits(c: nat, b: nat, k: nat)
    requires b < Pow2(k)
    ensures BitSteps(Xor(c, b), k) == FeedBits(c, Bits(b, k))
    decreases k
  {
    if k == 0 {
      XorZero(c);
    } else {
      var lo, hi := b % 2, b / 2;
      FirstBitPasses(c, b, lo, hi);
      StepsFeedBits(BitStep(Xor(c, lo)), hi, k - 1);
    }
  }

  lemma FirstBitPasses(c: nat, b: nat, lo: nat, hi: nat)
    requires lo < 2 && b == lo + 2 * hi
    ensures BitStep(Xor(c, b)) == Xor(BitStep(Xor(c, lo)), hi)
  {
    assert Pow2(1) == 2 && ShiftLeft(hi, 1) == 2 * hi;
    HighBitsPass(c, b, lo, hi, 1);
    assert BitSteps(Xor(c, b), 1) == BitStep(Xor(c, b));
    assert BitSteps(Xor(c, lo), 1) == BitStep(Xor(c, lo));
  }

  lemma {:induction false} FeedBitsConcat(c: nat, s: seq<bool>, t: seq<bool>)
    ensures FeedBits(c, s + t) == FeedBits(FeedBits(c, s), t)
    decreases |s|
  {
    if s == [] {
      assert s + t == t;
    } else {
      assert (s + t)[1..] == s[1..] + t;
      FeedBitsConcat(FeedBit(c, s[0]), s[1..], t);
    }
  }

  lemma {:induction false} RegisterFeedsBits(c: nat, buf: seq<Byte>)
    ensures Register(c, buf) == FeedBits(c, MessageBits(buf))
    decreases |buf|
  {
    if buf != [] {
      Pow2At32();
      StepsFeedBits(c, buf[0], BYTE_BITS);
      RegisterFeedsBits(BitSteps(Xor(c, buf[0]), BYTE_BITS), buf[1..]);
      FeedBitsConcat(c, Bits(buf[0], BYTE_BITS), MessageBits(buf[1..]));
    }
  }

  // The register after a step, as bits: the leading term is dropped and, when it was set, the
  // polynomial is added.
  lemma BitsOfStep(c: nat, n: nat)
    requires n > 0 && c < Pow2(n)
    ensures Bits(BitStep(c), n)
         == var rest := Bits(c, n)[1..] + [false];
            if c % 2 == 1 then AddLeading(rest, Bits(POLYNOMIAL, n)) else rest
  {
    BitsExtend(c, n);
    var half := Bits(c / 2, n);
    assert half == Bits(c, n + 1)[1..] == Bits(c, n)[1..] + [false];
    if c % 2 == 1 {
      BitsOfXor(POLYNOMIAL, c / 2, n);
      assert AddLeading(Bits(POLYNOMIAL, n), half) == AddLeading(half, Bits(POLYNOMIAL, n));
    }
  }

  lemma FeedBitBits(c: nat, b: bool, n: nat)
    requires n > 0 && c < Pow2(n)
    ensures Bits(FeedBit(c, b), n)
         == var rest := Bits(c, n)[1..] + [false];
            if Bits(c, n)[0] != b then AddLeading(rest, Bits(POLYNOMIAL, n)) else rest
  {
    var x := Xor(c, if b then 1 else 0);
    XorBound(c, if b then 1 else 0, n);
    XorBit(c, b, n);
    BitsOfStep(x, n);
  }

  // Adding a bit to the register changes only its leading term.
  lemma XorBit(c: nat, b: bool, n: nat)
    requires n > 0
    ensures var x := Xor(c, if b then 1 else 0);
            Bits(x, n)[1..] == Bits(c, n)[1..] && (x % 2 == 1 <==> Bits(c, n)[0] != b)
  {
    XorHalves(c, if b then 1 else 0);
    XorZero(c / 2);
  }

  lemma FeedBitBound(c: nat, b: bool, n: nat)
    requires n > 0 && c < Pow2(n) && POLYNOMIAL < Pow2(n)
    ensures FeedBit(c, b) < Pow2(n)
  {
    var x := Xor(c, if b then 1 else 0);
    XorBound(c, if b then 1 else 0, n);
    XorBound(POLYNOMIAL, x / 2, n);
  }

  lemma AddLeadingTwice(s: seq<bool>, t: seq<bool>, u: seq<bool>)
    requires |t| == |u| <= |s|
    ensures AddLeading(AddLeading(s, t), u) == AddLeading(s, AddLeading(t, u))
  {}

  lemma DividendTail(m: seq<bool>, r: seq<bool>, n: nat)
    requires m != [] && |r| == n > 0
    ensures var d := AddLeading(m + Zeros(n), r);
            d[1..] == AddLeading(m[1..] + Zeros(n), r[1..] + [false]) && d[0] == (m[0] != r[0])
  {}

  // Feeding the message bits divides the message, followed by n zero terms and with the initial
  // register added to its front.
  lemma {:induction false} FeedBitsDivides(c: nat, m: seq<bool>, n: nat)
    requires n > 0 && c < Pow2(n) && POLYNOMIAL < Pow2(n)
    ensures Bits(FeedBits(c, m), n) == Remainder(AddLeading(m + Zeros(n), Bits(c, n)), Bits(POLYNOMIAL, n))
    decreases |m|
  {
    var d := AddLeading(m + Zeros(n), Bits(c, n));
    if m == [] {
      assert d == Bits(c, n);
    } else {
      var next, rest := FeedBit(c, m[0]), Bits(c, n)[1..] + [false];
      FeedBitBound(c, m[0], n);
      FeedBitsDivides(next, m[1..], n);
      FeedBitBits(c, m[0], n);
      DividendTail(m, Bits(c, n), n);
      if d[0] {
        AddLeadingTwice(m[1..] + Zeros(n), rest, Bits(POLYNOMIAL, n));
      }
    }
  }

  /** The CRC is the inverted remainder of the message, with the inverted initial value added to its
      leading 32 terms, by the generator polynomial, the sum of x^32 and the powers listed above. */
  lemma UpdateIsRemainder(crc: Word, buf: seq<Byte>)
    ensures Bits(Update(crc, buf), WORD_BITS)
         == Not(Remainder(AddLeading(MessageBits(buf) + Zeros(32), Not(Bits(crc, 32))), Terms(Power, 32)))
  {
    var c := Xor(crc, ALL_ONES);
    XorWord(crc, ALL_ONES);
    RegisterWord(c, buf);
    BitsInverted(crc);
    BitsInverted(Register(c, buf));
    RegisterFeedsBits(c, buf);
    Pow2At32();
    FeedBitsDivides(c, MessageBits(buf), WORD_BITS);
    PolynomialIsGenerator();
  }

  // ----- the program's table and loop -----

  ghost predicate IsTable(t: seq<nat>) {
    |t| == 256 && forall b :: 0 <= b < 256 ==> t[b] == BitSteps(b, BYTE_BITS)
  }

  lemma TableLookup(t: seq<nat>, c: nat, b: Byte)
    requires IsTable(t)
    ensures Xor(t[Xor(c, b) % 256], c / 256) == BitSteps(Xor(c, b), BYTE_BITS)
  {
    TableStep(Xor(c, b));
    XorHigh(c, b);
  }

  lemma RegisterExtend(c: nat, buf: seq<Byte>, n: nat)
    requires n < |buf|
    ensures Register(c, buf[..n + 1]) == BitSteps(Xor(Register(c, buf[..n]), buf[n]), BYTE_BITS)
  {
    assert buf[..n + 1] == buf[..n] + [buf[n]];
    RegisterConcat(c, buf[..n], [buf[n]]);
    RegisterOfByte(Register(c, buf[..n]), buf[n]);
  }

  lemma RegisterOfByte(c: nat, b: Byte)
    ensures Register(c, [b]) == BitSteps(Xor(c, b), BYTE_BITS)
  {
    assert [b][1..] == [];
  }

  // The inner loop of make_crc_table: eight single-bit steps.
  method TableEntry(n: nat) returns (c: nat)
    ensures c == BitSteps(n, BYTE_BITS)
  {
    c := n;
    var k := 0;
    while k < 8
      invariant 0 <= k <= 8
      invariant BitSteps(c, BYTE_BITS - k) == BitSteps(n, BYTE_BITS)
    {
      FirstStep(c, BYTE_BITS - k);
      if c % 2 == 1 {
        c := Xor(0xEDB8_8320, c / 2);
      } else {
        c := c / 2;
      }
      k := k + 1;
    }
  }

  // The globals `crc_table` and `crc_table_computed`.
  class CrcTable {
    const table: array<nat>
    var computed: bool

    ghost predicate Valid()
      reads this, table
    {
      table.Length == 256 && (computed ==> IsTable(table[..]))
    }

    constructor ()
      ensures Valid() && fresh(table) && !computed
    {
      table := new nat[256];
      computed := false;
    }

    method MakeCrcTable()
      requires Valid()
      modifies this, table
      ensures Valid() && computed
    {
      var n := 0;
      while n < 256
        invariant 0 <= n <= 256
        invariant forall b :: 0 <= b < n ==> table[b] == BitSteps(b, BYTE_BITS)
      {
        var c := TableEntry(n);
        table[n] := c;
        n := n + 1;
      }
      computed := true;
    }

    /** The table is filled on first use; the result is the bitwise CRC whatever its state was. */
    method UpdateCrc(crc: Word, buf: seq<Byte>) returns (r: Word)
      requires Valid()
      modifies this, table
      ensures Valid() && computed
      ensures r == Update(crc, buf)
      ensures Bits(r, 32)
           == Not(Remainder(AddLeading(MessageBits(buf) + Zeros(32), Not(Bits(crc, 32))), Terms(Power, 32)))
    {
      UpdateIsRemainder(crc, buf);
      XorWord(crc, ALL_ONES);
      var c := Xor(crc, 0xFFFF_FFFF);
      if !computed {
        MakeCrcTable();
      }
      ghost var start := c;
      var n := 0;
      while n < |buf|
        invariant 0 <= n <= |buf|
        invariant computed && Valid()
        invariant c == Register(start, buf[..n])
      {
        RegisterExtend(start, buf, n);
        TableLookup(table[..], c, buf[n]);
        c := Xor(table[Xor(c, buf[n]) % 256], c / 256);
        n := n + 1;
      }
      assert buf[..n] == buf;
      RegisterWord(start, buf);
      XorWord(c, ALL_ONES);
      r := Xor(c, 0xFFFF_FFFF);
    }
  }

  lemma XorHigh(c: nat, b: Byte)
    ensures Xor(c, b) / 256 == c / 256
  {
    var lo, hi := c % 256, c / 256;
    Pow2At32();
    ShiftLeftByte(hi);
    XorBound(lo, b, BYTE_BITS);
    XorCommutes(lo, b);
    XorCommutes(c, b);
    XorAssociates(b, lo, 256 * hi);
    XorOfDisjoint(lo, hi, BYTE_BITS);
    XorOfDisjoint(Xor(b, lo), hi, BYTE_BITS);
  }
}
