/** The multiply and divide instructions against exact integer arithmetic (chapter 7 of the RISC-V
    Unprivileged ISA 20191213), over all 32-bit operands. */
module Rv32m {
  import opened Words
  import opened Isa
  import opened Guest

  // ----- high words -----

  /** Bits 32 to 63 of an integer are its floor quotient by 2^32, modulo 2^32. */
  lemma UpperHalfIsQuotient(p: int)
    ensures UpperHalf(p) == Wrap(p / WORD)
  {
  }

  lemma UpperHalfShift(p: int, k: int)
    ensures UpperHalf(p + k * WORD) == Wrap(UpperHalf(p) + k)
  {
    UpperHalfIsQuotient(p);
    UpperHalfIsQuotient(p + k * WORD);
    QuotientShift(p, k);
    hide UpperHalf;
    WrapShift(p / WORD, k);
  }

  lemma QuotientShift(p: int, k: int)
    ensures (p + k * WORD) / WORD == p / WORD + k
  {
  }

  lemma WrapShift(q: int, k: int)
    ensures Wrap(q + k) == Wrap(Wrap(q) + k)
  {
  }

  /** MULH, MULHSU and MULHU are the high words of the signed, mixed and unsigned products. */
  lemma HighWords(x: Word, y: Word)
    ensures RegResult(MULH, x, y) == Wrap(Signed(x) * Signed(y) / WORD)
    ensures RegResult(MULHSU, x, y) == Wrap(Signed(x) * y / WORD)
    ensures RegResult(MULHU, x, y) == x * y / WORD
  {
    UpperHalfIsQuotient(Signed(x) * Signed(y));
    UpperHalfIsQuotient(Signed(x) * y);
    MixedModulus(Signed(x), y);
    UnsignedHigh(x, y);
  }

  lemma MixedModulus(a: int, y: Word)
    requires -0x8000_0000 <= a < 0x8000_0000
    ensures UpperHalf((a % TWO64) * y) == UpperHalf(a * y)
  {
    hide UpperHalf;
    if a >= 0 {
      DivMod(a, 0, TWO64, a);
    } else {
      DivMod(a, -1, TWO64, a + TWO64);
      Distribute(a, TWO64, y);
      UpperHalfShift(a * y, y * WORD);
    }
  }

  lemma Distribute(a: int, b: int, y: int)
    ensures (a + b) * y == a * y + b * y
  {
  }

  lemma UnsignedHigh(x: Word, y: Word)
    ensures UpperHalf(x * y) == x * y / WORD
  {
    hide UpperHalf;
    MulMono(0, x, y);
    MulMono(x, 0xFFFF_FFFF, y);
    HighOf(x * y);
  }

  lemma HighOf(p: int)
    requires 0 <= p < TWO64
    ensures UpperHalf(p) == p / WORD
  {
  }

  /** What the unsigned high word has too much, compared with the signed one. */
  function MulhCorrection(x: Word, y: Word): int {
    ((if x >= HALF then y else 0) + (if y >= HALF then x else 0)) % WORD
  }

  lemma UnsignedProduct(x: Word, y: Word) returns (k: int)
    ensures x * y == Signed(x) * Signed(y) + k * WORD
    ensures k % WORD == MulhCorrection(x, y)
  {
    k := (if x >= HALF then Signed(y) else 0) + (if y >= HALF then Signed(x) else 0)
       + (if x >= HALF && y >= HALF then WORD else 0);
    ProductOf(Signed(x), Signed(y), if x >= HALF then 1 else 0, if y >= HALF then 1 else 0);
  }

  lemma ProductOf(a: int, b: int, c: int, d: int)
    requires c in {0, 1} && d in {0, 1}
    ensures (a + c * WORD) * (b + d * WORD)
         == a * b + ((if c == 1 then b else 0) + (if d == 1 then a else 0) + if c == 1 && d == 1 then WORD else 0) * WORD
  {
    Distribute(a, c * WORD, b + d * WORD);
    if d == 1 {
      Distribute(b, WORD, a);
    }
  }

  /** The x86 `mul` the translator emits for MULH is off by exactly the correction. */
  lemma UnsignedVersusSignedHigh(x: Word, y: Word)
    ensures UpperHalf(x * y) == Wrap(RegResult(MULH, x, y) + MulhCorrection(x, y))
    ensures UpperHalf(x * y) == RegResult(MULH, x, y) <==> MulhCorrection(x, y) == 0
  {
    var k := UnsignedProduct(x, y);
    UpperHalfShift(Signed(x) * Signed(y), k);
    WrapSum(UpperHalf(Signed(x) * Signed(y)), k);
  }

  lemma WrapSum(h: Word, k: int)
    ensures Wrap(h + k) == Wrap(h + k % WORD)
    ensures Wrap(h + k) == h <==> k % WORD == 0
  {
  }

  // ----- division -----

  /** Division rounded towards zero: exact, with a remainder smaller than the divisor and of the
      dividend's sign. */
  lemma TruncDivExact(a: int, b: int)
    requires b != 0
    ensures a == TruncDiv(a, b) * b + TruncRem(a, b)
    ensures -Abs(b) < TruncRem(a, b) < Abs(b)
    ensures a >= 0 ==> TruncRem(a, b) >= 0
    ensures a <= 0 ==> TruncRem(a, b) <= 0
  {
  }

  function Abs(x: int): int { if x < 0 then -x else x }

  lemma TruncDivBound(a: int, b: int)
    requires b != 0
    ensures Abs(TruncDiv(a, b)) <= Abs(a)
    ensures a != 0 && (b > 1 || b < -1) ==> Abs(TruncDiv(a, b)) < Abs(a)
  {
    var n, d := Abs(a), Abs(b);
    DivBounds(n, d);
    var q := n / d;
    assert n == q * d + n % d;
    if d >= 2 && n > 0 && q >= n {
      MulMono(2, d, q);
    }
  }

  /** DIV and REM: quotient and remainder as the manual defines them, with its two special cases. */
  lemma SignedDivision(x: Word, y: Word)
    ensures var q, r := Signed(RegResult(DIV, x, y)), Signed(RegResult(REM, x, y));
      if y == 0 then q == -1 && r == Signed(x)
      else if Signed(x) == -0x8000_0000 && Signed(y) == -1 then q == -0x8000_0000 && r == 0
      else
        && Signed(x) == q * Signed(y) + r && -Abs(Signed(y)) < r < Abs(Signed(y))
        && (Signed(x) >= 0 ==> r >= 0) && (Signed(x) <= 0 ==> r <= 0)
  {
    var a, b := Signed(x), Signed(y);
    if y != 0 && !(a == -0x8000_0000 && b == -1) {
      TruncDivExact(a, b);
      TruncDivBound(a, b);
      var q, r := TruncDiv(a, b), TruncRem(a, b);
      hide TruncDiv, TruncRem;
      assert q < 0x8000_0000 by { NoQuotientOverflow(a, b); }
      SignedWrap(q);
      SignedWrap(r);
    }
  }

  lemma NoQuotientOverflow(a: int, b: int)
    requires b != 0 && -0x8000_0000 <= a < 0x8000_0000 && !(a == -0x8000_0000 && b == -1)
    ensures TruncDiv(a, b) < 0x8000_0000
  {
    TruncDivBound(a, b);
    if a == -0x8000_0000 && b == 1 {
      assert TruncDiv(a, 1) == a by { TruncDivExact(a, 1); }
    }
  }

  lemma SignedWrap(v: int)
    requires -0x8000_0000 <= v < 0x8000_0000
    ensures Signed(Wrap(v)) == v
  {
  }

  lemma UnsignedDivision(x: Word, y: Word)
    ensures var q, r := RegResult(DIVU, x, y), RegResult(REMU, x, y);
      if y == 0 then q == 0xFFFF_FFFF && r == x else x == q * y + r && 0 <= r < y
  {
    hide TruncDiv, TruncRem, UpperHalf, ShiftRightArith, Wrap, Signed, Add, Sub, Shl, Shr, And, Or, Xor;
    if y != 0 {
      QuotientAndRest(x, y);
    }
  }

  lemma QuotientAndRest(x: Word, y: Word)
    requires y != 0
    ensures Wrap(x / y) == x / y && x == (x / y) * y + x % y && 0 <= x % y < y
  {
    DivBounds(x, y);
  }

  lemma ShrModulo(x: Word, n: nat)
    ensures Shr(x, n) == Shr(x, n % 32)
    ensures n % 32 == 0 ==> Shr(x, n) == x
  {
  }

  /** The interpreter's shift with sign mask is floor division, for any amount taken modulo 32. */
  lemma SraAnyAmount(x: Word, n: nat)
    ensures ShiftRightArith(x, n) == Sar(x, n % 32)
  {
    hide Shr, Sar, Or;
    SraMaskIsFloorDivision(x, n % 32);
    ShrModulo(x, n);
    ShrModulo(0xFFFF_FFFF, n);
  }

  /** SRA floor-divides the signed operand by a power of two. */
  lemma ArithmeticShift(x: Word, y: Word)
    ensures RegResult(SRA, x, y) == Wrap(Signed(x) / Pow2(y % 32))
  {
    hide ShiftRightArith, RegResult;
    SraAnyAmount(x, y % 32);
    SraResult(x, y);
    DivMod(y % 32, 0, 32, y % 32);
  }

  lemma SraResult(x: Word, y: Word)
    ensures RegResult(SRA, x, y) == ShiftRightArith(x, y % 32)
  {
  }
}
