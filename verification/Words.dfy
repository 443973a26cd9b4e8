/** 32-bit machine words as bounded integers, with every wrap-around written out. */
module Words {
  const WORD := 0x1_0000_0000
  const HALF := 0x8000_0000

  type Word = x: int | 0 <= x < 0x1_0000_0000
  type Byte = x: int | 0 <= x < 256

  /** Conversion to `uint32_t`: the residue modulo 2^32. */
  function Wrap(x: int): Word {
    x % 0x1_0000_0000
  }

  lemma WrapAdd(x: int, y: int)
    ensures Wrap(x + Wrap(y)) == Wrap(x + y)
  {
  }

  function Add(a: Word, b: Word): Word {
    Wrap(a + b)
  }

  lemma AddIsWrap(x: Word, y: Word)
    ensures Add(x, y) == Wrap(x + y)
  {
  }

  function Sub(a: Word, b: Word): Word {
    Wrap(a - b)
  }

  /** The `int32_t` reading of a word. */
  function Signed(a: Word): (s: int)
    ensures -0x8000_0000 <= s < 0x8000_0000
    ensures Wrap(s) == a
  {
    if a < 0x8000_0000 then a else a - 0x1_0000_0000
  }

  function Pow2(n: nat): (p: nat)
    ensures p > 0
  {
    if n == 0 then 1 else 2 * Pow2(n - 1)
  }

  lemma {:induction false} Pow2Add(m: nat, n: nat)
    ensures Pow2(m + n) == Pow2(m) * Pow2(n)
  {
    if m == 0 {
    } else {
      Pow2Add(m - 1, n);
      assert Pow2(m + n) == 2 * Pow2((m - 1) + n);
      assert Pow2(m) * Pow2(n) == 2 * (Pow2(m - 1) * Pow2(n)) by {
        MulAssoc(2, Pow2(m - 1), Pow2(n));
      }
    }
  }

  lemma MulAssoc(a: int, b: int, c: int)
    ensures (a * b) * c == a * (b * c)
  {
  }

  lemma Pow2At32()
    ensures Pow2(32) == 0x1_0000_0000
  {
    assert Pow2(8) == 256;
    Pow2Add(8, 8);
    Pow2Add(16, 16);
  }

  /** Exact quotient and remainder of a division by a positive divisor. */
  lemma DivMod(x: int, q: int, d: int, r: int)
    requires d > 0 && 0 <= r < d && x == q * d + r
    ensures x / d == q && x % d == r
  {
    var q' := x / d;
    assert x == q' * d + x % d;
    assert (q - q') * d == x % d - r;
    if q - q' >= 1 {
      MulMono(1, q - q', d);
    } else if q - q' <= -1 {
      MulMono(q - q', -1, d);
    }
  }

  lemma MulMono(a: int, b: int, c: int)
    requires a <= b && c >= 0
    ensures a * c <= b * c
  {
  }

  lemma DivBounds(a: nat, d: nat)
    requires d > 0
    ensures 0 <= a / d <= a
  {
    var q := a / d;
    assert a == q * d + a % d;
    if q > a {
      MulMono(a + 1, q, d);
      MulMono(1, d, a + 1);
    }
    if q < 0 {
      MulMono(q, -1, d);
    }
  }

  // ----- shifts: the hardware and the C++ operators take the amount modulo 32 -----

  function Shl(a: Word, n: nat): Word {
    Wrap(a * Pow2(n % 32))
  }

  function Shr(a: Word, n: nat): Word {
    DivBounds(a, Pow2(n % 32));
    a / Pow2(n % 32)
  }

  /** Arithmetic right shift: floor division of the signed value by a power of two. */
  function Sar(a: Word, n: nat): Word {
    Wrap(Signed(a) / Pow2(n % 32))
  }

  // ----- bitwise operators -----

  function BitAnd(a: nat, b: nat): (r: nat)
    ensures r <= a && r <= b
    decreases a
  {
    if a == 0 || b == 0 then 0 else (a % 2) * (b % 2) + 2 * BitAnd(a / 2, b / 2)
  }

  function BitOr(a: nat, b: nat): nat
    decreases a
  {
    if a == 0 then b else (if a % 2 + b % 2 == 0 then 0 else 1) + 2 * BitOr(a / 2, b / 2)
  }

  function BitXor(a: nat, b: nat): nat
    decreases a
  {
    if a == 0 then b else (a % 2 + b % 2) % 2 + 2 * BitXor(a / 2, b / 2)
  }

  lemma {:induction false} BitOrBound(a: nat, b: nat, k: nat)
    requires a < Pow2(k) && b < Pow2(k)
    ensures BitOr(a, b) < Pow2(k)
  {
    if a != 0 {
      BitOrBound(a / 2, b / 2, k - 1);
    }
  }

  lemma {:induction false} BitXorBound(a: nat, b: nat, k: nat)
    requires a < Pow2(k) && b < Pow2(k)
    ensures BitXor(a, b) < Pow2(k)
  {
    if a != 0 {
      BitXorBound(a / 2, b / 2, k - 1);
    }
  }

  function And(a: Word, b: Word): Word {
    BitAnd(a, b)
  }

  function Or(a: Word, b: Word): Word {
    Pow2At32();
    BitOrBound(a, b, 32);
    BitOr(a, b)
  }

  function Xor(a: Word, b: Word): Word {
    Pow2At32();
    BitXorBound(a, b, 32);
    BitXor(a, b)
  }

  function Not(a: Word): Word {
    0xFFFF_FFFF - a
  }

  lemma {:induction false} BitXorSelf(a: nat)
    ensures BitXor(a, a) == 0
  {
    if a != 0 {
      BitXorSelf(a / 2);
    }
  }

  lemma {:induction false} BitOrZero(a: nat)
    ensures BitOr(a, 0) == a
  {
    if a != 0 {
      BitOrZero(a / 2);
    }
  }

  lemma {:induction false} Pow2Mono(k: nat, m: nat)
    requires k <= m
    ensures Pow2(k) <= Pow2(m)
  {
    if k > 0 {
      Pow2Mono(k - 1, m - 1);
    }
  }

  /** Or-ing the bits k to m - 1 to a number below 2^k adds them. */
  lemma {:induction false} BitOrDisjoint(low: nat, k: nat, m: nat)
    requires low < Pow2(k) && k <= m
    ensures Pow2(k) <= Pow2(m)
    ensures BitOr(low, Pow2(m) - Pow2(k)) == low + Pow2(m) - Pow2(k)
  {
    hide BitOr, Pow2;
    Pow2Mono(k, m);
    Pow2Halves(k);
    Pow2Halves(m);
    BitOrStep(low, Pow2(m) - Pow2(k));
    if low != 0 {
      BitOrDisjoint(low / 2, k - 1, m - 1);
      HalfOfEven(Pow2(m - 1) - Pow2(k - 1));
    }
  }

  lemma Pow2Halves(k: nat)
    ensures if k == 0 then Pow2(k) == 1 else Pow2(k) == 2 * Pow2(k - 1)
  {
  }

  lemma BitOrStep(a: nat, b: nat)
    ensures BitOr(a, b) == if a == 0 then b else (if a % 2 + b % 2 == 0 then 0 else 1) + 2 * BitOr(a / 2, b / 2)
  {
  }

  lemma HalfOfEven(x: nat)
    ensures 2 * x / 2 == x && 2 * x % 2 == 0
  {
  }

  lemma ModDouble(a: nat, p: nat)
    requires p > 0
    ensures a % (2 * p) == 2 * ((a / 2) % p) + a % 2
  {
    var q, r := a / 2 / p, (a / 2) % p;
    assert a / 2 == q * p + r;
    MulAssoc(q, 2, p);
    DivMod(a, q, 2 * p, 2 * r + a % 2);
  }

  /** And with 2^k - 1 is the remainder modulo 2^k. */
  lemma {:induction false} BitAndMask(a: nat, k: nat)
    ensures BitAnd(a, Pow2(k) - 1) == a % Pow2(k)
  {
    hide BitAnd, Pow2;
    Pow2Halves(k);
    if k == 0 {
    } else if a == 0 {
      DivMod(0, 0, Pow2(k), 0);
    } else {
      var p := Pow2(k - 1);
      BitAndMask(a / 2, k - 1);
      HalfOfOdd(p);
      BitAndStep(a, 2 * p - 1);
      ModDouble(a, p);
    }
  }

  lemma BitAndStep(a: nat, b: nat)
    ensures BitAnd(a, b) == (a % 2) * (b % 2) + 2 * BitAnd(a / 2, b / 2)
  {
  }

  lemma HalfOfOdd(p: nat)
    requires p > 0
    ensures (2 * p - 1) / 2 == p - 1 && (2 * p - 1) % 2 == 1
  {
  }

  // ----- the sign-extension mask of the shift instructions -----

  /** Shifting a word right by n keeps a quotient below 2^(32-n); p and q stand for the two powers. */
  lemma ShiftArith(p: nat, q: nat, a: Word)
    requires p >= 1 && q >= 1 && p * q == 0x1_0000_0000
    ensures 0 <= a / p < q
    ensures 0xFFFF_FFFF / p == q - 1
    ensures (a - 0x1_0000_0000) / p == a / p - q
  {
    var d, r := a / p, a % p;
    assert a == d * p + r;
    assert (q - 1) * p == 0x1_0000_0000 - p;
    DivMod(0xFFFF_FFFF, q - 1, p, p - 1);
    assert (d - q) * p == d * p - 0x1_0000_0000;
    DivMod(a - 0x1_0000_0000, d - q, p, r);
    if d >= q {
      MulMono(q, d, p);
    } else if d < 0 {
      MulMono(d, -1, p);
    }
  }

  lemma Pow2Split(n: nat)
    requires n <= 32
    ensures Pow2(n) * Pow2(32 - n) == 0x1_0000_0000
  {
    Pow2At32();
    Pow2Add(n, 32 - n);
  }

  /** `~(~0u >> n)` has exactly the n highest bits set, so or-ing it to a shifted word adds it. */
  lemma HighMask(x: nat, n: nat)
    requires 0 < n < 32 && x < Pow2(32 - n)
    ensures 0 <= Not(Shr(0xFFFF_FFFF, n)) == 0x1_0000_0000 - Pow2(32 - n)
    ensures BitOr(x, Not(Shr(0xFFFF_FFFF, n))) == x + 0x1_0000_0000 - Pow2(32 - n)
  {
    hide BitOr, Pow2;
    DivMod(n, 0, 32, n);
    Pow2Split(n);
    ShiftArith(Pow2(n), Pow2(32 - n), 0);
    Pow2At32();
    BitOrDisjoint(x, 32 - n, 32);
  }

  lemma SarQuotient(a: Word, n: nat)
    requires n < 32
    ensures Shr(a, n) < Pow2(32 - n)
    ensures Sar(a, n) == if Signed(a) < 0 then Wrap(Shr(a, n) - Pow2(32 - n)) else Shr(a, n)
  {
    Pow2Split(n);
    ShiftArith(Pow2(n), Pow2(32 - n), a);
  }

  /** The mask trick of the interpreter's SRA and SRAI is floor division. */
  lemma SraMaskIsFloorDivision(a: Word, n: nat)
    requires n < 32
    ensures Or(Shr(a, n), if Signed(a) < 0 && n > 0 then Not(Shr(0xFFFF_FFFF, n)) else 0) == Sar(a, n)
  {
    hide BitOr, Pow2;
    SarQuotient(a, n);
    var x, q := Shr(a, n), Pow2(32 - n);
    if Signed(a) < 0 && n > 0 {
      HighMask(x, n);
      WrapNegative(x - q);
    } else {
      BitOrZero(x);
      Pow2Halves(0);
      if n == 0 {
        assert x == a;
      }
    }
  }

  lemma WrapNegative(x: int)
    ensures -0x1_0000_0000 <= x < 0 ==> Wrap(x) == x + 0x1_0000_0000
  {
  }
}
