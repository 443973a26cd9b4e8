/** What the instructions compute, said bit by bit and byte by byte, and what they do not touch. */
module IsaLaws {
  import opened Words
  import opened Isa
  import opened Guest
  import opened Options
  import opened Arch
  import Decoding

  // ----- bits -----

  /** Bit i of a number. */
  function Bit(a: nat, i: nat): (b: nat)
    ensures b <= 1
  {
    a / Pow2(i) % 2
  }

  lemma BitHalves(a: nat, i: nat)
    ensures Bit(a, 0) == a % 2 && Bit(a, i + 1) == Bit(a / 2, i)
  {
    Pow2Halves(0);
    Pow2Halves(i + 1);
    hide Pow2;
    Decoding.HalfQuotient(a, Pow2(i));
  }

  lemma BitOfDouble(x: nat, i: nat)
    ensures Bit(2 * x, i + 1) == Bit(x, i) && Bit(2 * x + 1, i + 1) == Bit(x, i)
    ensures Bit(2 * x, 0) == 0 && Bit(2 * x + 1, 0) == 1
  {
    hide Bit;
    BitHalves(2 * x, i);
    BitHalves(2 * x + 1, i);
    assert 2 * x / 2 == x && (2 * x + 1) / 2 == x;
  }

  lemma {:induction false} AndBit(a: nat, b: nat, i: nat)
    ensures Bit(BitAnd(a, b), i) == Bit(a, i) * Bit(b, i)
    decreases i
  {
    hide Bit, BitAnd;
    BitAndStep(a, b);
    var x := BitAnd(a / 2, b / 2);
    BitOfDouble(x, if i > 0 then i - 1 else 0);
    BitHalves(a, if i > 0 then i - 1 else 0);
    BitHalves(b, if i > 0 then i - 1 else 0);
    BitProduct(a, b);
    if i > 0 {
      AndBit(a / 2, b / 2, i - 1);
    }
  }

  lemma BitProduct(a: nat, b: nat)
    ensures (a % 2) * (b % 2) in {0, 1}
  {
  }

  lemma {:induction false} OrBit(a: nat, b: nat, i: nat)
    ensures Bit(BitOr(a, b), i) == if Bit(a, i) == 1 || Bit(b, i) == 1 then 1 else 0
    decreases i
  {
    hide Bit, BitOr;
    BitOrUnfolds(a, b);
    var x := BitOr(a / 2, b / 2);
    BitOfDouble(x, if i > 0 then i - 1 else 0);
    BitHalves(a, if i > 0 then i - 1 else 0);
    BitHalves(b, if i > 0 then i - 1 else 0);
    if i > 0 {
      OrBit(a / 2, b / 2, i - 1);
    }
  }

  lemma BitOrUnfolds(a: nat, b: nat)
    ensures BitOr(a, b) == (if a % 2 == 1 || b % 2 == 1 then 1 else 0) + 2 * BitOr(a / 2, b / 2)
  {
    BitOrStep(a, b);
    BitOrStep(0, b / 2);
  }

  lemma {:induction false} XorBit(a: nat, b: nat, i: nat)
    ensures Bit(BitXor(a, b), i) == if Bit(a, i) != Bit(b, i) then 1 else 0
    decreases i
  {
    hide Bit, BitXor;
    BitXorUnfolds(a, b);
    var x := BitXor(a / 2, b / 2);
    BitOfDouble(x, if i > 0 then i - 1 else 0);
    BitHalves(a, if i > 0 then i - 1 else 0);
    BitHalves(b, if i > 0 then i - 1 else 0);
    if i > 0 {
      XorBit(a / 2, b / 2, i - 1);
    }
  }

  lemma BitXorUnfolds(a: nat, b: nat)
    ensures BitXor(a, b) == (if a % 2 != b % 2 then 1 else 0) + 2 * BitXor(a / 2, b / 2)
  {
    hide BitXor;
    BitXorStep(a, b);
    BitXorStep(0, b / 2);
  }

  lemma BitXorStep(a: nat, b: nat)
    ensures BitXor(a, b) == if a == 0 then b else (a % 2 + b % 2) % 2 + 2 * BitXor(a / 2, b / 2)
  {
  }

  lemma {:induction false} BitOfScaled(a: nat, n: nat, i: nat)
    ensures Bit(a * Pow2(n), i) == if i < n then 0 else Bit(a, i - n)
    decreases n
  {
    hide Bit, Pow2;
    Pow2Halves(n);
    if n > 0 {
      var x := a * Pow2(n - 1);
      MulAssoc(2, a, Pow2(n - 1));
      assert a * Pow2(n) == 2 * x by { TwiceProduct(a, Pow2(n - 1)); }
      BitOfDouble(x, if i > 0 then i - 1 else 0);
      if i > 0 {
        BitOfScaled(a, n - 1, i - 1);
      }
    }
  }

  lemma TwiceProduct(a: nat, p: nat)
    ensures a * (2 * p) == 2 * (a * p)
  {
  }

  lemma {:induction false} BitOfRest(x: nat, m: nat, i: nat)
    requires i < m
    ensures Bit(x % Pow2(m), i) == Bit(x, i)
    decreases i
  {
    hide Bit, Pow2;
    Pow2Halves(m);
    ModDouble(x, Pow2(m - 1));
    var r := x / 2 % Pow2(m - 1);
    BitOfDouble(r, if i > 0 then i - 1 else 0);
    BitHalves(x, if i > 0 then i - 1 else 0);
    if i > 0 {
      BitOfRest(x / 2, m - 1, i - 1);
    }
  }

  /** The number without its n lowest bits. */
  function Above(a: nat, n: nat): nat {
    DivBounds(a, Pow2(n));
    a / Pow2(n)
  }

  lemma {:induction false} BitOfQuotient(a: nat, n: nat, i: nat)
    ensures Bit(Above(a, n), i) == Bit(a, i + n)
    decreases n
  {
    hide Bit, Pow2;
    Pow2Halves(n);
    if n == 0 {
      assert a / 1 == a;
    } else {
      Decoding.HalfQuotient(a, Pow2(n - 1));
      BitOfQuotient(a / 2, n - 1, i);
      BitHalves(a, i + n - 1);
    }
  }

  // ----- words -----

  /** `Signed` is the two's complement reading. */
  lemma SignedIs(x: Word)
    ensures -0x8000_0000 <= Signed(x) < 0x8000_0000 && (Signed(x) == x || Signed(x) == x - 0x1_0000_0000)
  {
  }

  lemma LogicBits(x: Word, y: Word, i: nat)
    ensures Bit(And(x, y), i) == (if Bit(x, i) == 1 && Bit(y, i) == 1 then 1 else 0)
    ensures Bit(Or(x, y), i) == (if Bit(x, i) == 1 || Bit(y, i) == 1 then 1 else 0)
    ensures Bit(Xor(x, y), i) == (if Bit(x, i) != Bit(y, i) then 1 else 0)
  {
    hide Bit, BitAnd, BitOr, BitXor;
    AndBit(x, y, i);
    OrBit(x, y, i);
    XorBit(x, y, i);
    BothBits(Bit(x, i), Bit(y, i));
  }

  lemma BothBits(a: nat, b: nat)
    requires a <= 1 && b <= 1
    ensures a * b == if a == 1 && b == 1 then 1 else 0
  {
  }

  /** Shifts move bits by the amount modulo 32 and fill with zeros. */
  lemma ShiftBits(x: Word, n: nat, i: nat)
    requires i < 32
    ensures Bit(Shl(x, n), i) == (if i < n % 32 then 0 else Bit(x, i - n % 32))
    ensures Bit(Shr(x, n), i) == (if i + n % 32 < 32 then Bit(x, i + n % 32) else 0)
  {
    hide Bit, Pow2;
    Pow2At32();
    BitOfScaled(x, n % 32, i);
    BitOfRest(x * Pow2(n % 32), 32, i);
    BitOfQuotient(x, n % 32, i);
    if i + n % 32 >= 32 {
      BitAbove(x, i + n % 32);
    }
  }

  lemma BitAbove(x: Word, i: nat)
    requires i >= 32
    ensures Bit(x, i) == 0
  {
    Pow2At32();
    Pow2Mono(32, i);
    hide Pow2;
    DivMod(x, 0, Pow2(i), x);
  }

  // ----- register instructions -----

  /** Immediate and register arithmetic, through the step. */
  lemma ArithLaw(sys: Sys, i: Inst, off: nat, s: GState)
    requires i.rd != 0
    requires i.cmd in {ADDI, SLTI, SLTIU, ADD, SUB, SLT, SLTU, MUL}
    ensures var x: int, y: int := s.regs[i.rs1], if i.cmd in {ADDI, SLTI, SLTIU} then i.imm else s.regs[i.rs2];
            Step(sys, i, off, s) ==
              Running(s.(regs := s.regs[i.rd :=
                if i.cmd in {ADDI, ADD} then (x + y) % 0x1_0000_0000
                else if i.cmd == SUB then (x - y) % 0x1_0000_0000
                else if i.cmd == MUL then (x * y) % 0x1_0000_0000
                else if i.cmd in {SLTIU, SLTU} then (if x < y then 1 else 0)
                else if SignedLess(x, y) then 1 else 0]))
  {
    hide Step, SetReg, ImmResult, RegResult, IsImmArith, IsRegArith, OpcodeOf;
    ArithValues(i.cmd, s.regs[i.rs1], if i.cmd in {ADDI, SLTI, SLTIU} then i.imm else s.regs[i.rs2]);
    ArithIs(sys, i, off, s);
    SetRegIs(s, i.rd, if i.cmd in {ADDI, SLTI, SLTIU} then ImmResult(i.cmd, s.regs[i.rs1], i.imm)
                      else RegResult(i.cmd, s.regs[i.rs1], s.regs[i.rs2]));
  }

  lemma SetRegIs(s: GState, r: Reg, v: Word)
    requires r != 0
    ensures SetReg(s, r, v) == s.(regs := s.regs[r := v])
  {
  }

  /** Every arithmetic instruction sets rd to its result and goes on. */
  lemma ArithIs(sys: Sys, i: Inst, off: nat, s: GState)
    requires IsImmArith(i.cmd) || IsRegArith(i.cmd)
    ensures Step(sys, i, off, s)
         == Running(SetReg(s, i.rd, if IsImmArith(i.cmd) then ImmResult(i.cmd, s.regs[i.rs1], i.imm)
                                    else RegResult(i.cmd, s.regs[i.rs1], s.regs[i.rs2])))
  {
    hide SetReg, ImmResult, RegResult, LoadBytes, StoreBytes, Extend, SysCall, BranchTaken, And, Add, Wrap, Signed;
  }

  lemma ArithValues(c: Cmd, x: Word, y: Word)
    requires c in {ADDI, SLTI, SLTIU, ADD, SUB, SLT, SLTU, MUL}
    ensures IsImmArith(c) <==> c in {ADDI, SLTI, SLTIU}
    ensures IsRegArith(c) <==> c !in {ADDI, SLTI, SLTIU}
    ensures var a: int, b: int := x, y;
            (if IsImmArith(c) then ImmResult(c, x, y) else RegResult(c, x, y)) ==
              if c in {ADDI, ADD} then (a + b) % 0x1_0000_0000
              else if c == SUB then (a - b) % 0x1_0000_0000
              else if c == MUL then (a * b) % 0x1_0000_0000
              else if c in {SLTIU, SLTU} then (if a < b then 1 else 0)
              else if SignedLess(a, b) then 1 else 0
  {
    hide UpperHalf, TruncDiv, TruncRem, ShiftRightArith, Shl, Shr, And, Or, Xor;
  }

  /** x below y in two's complement. */
  predicate SignedLess(x: int, y: int) {
    (if x >= 0x8000_0000 then x - 0x1_0000_0000 else x) < if y >= 0x8000_0000 then y - 0x1_0000_0000 else y
  }

  /** The bitwise commands and the logical shifts, bit by bit. */
  lemma BitwiseLaw(sys: Sys, i: Inst, off: nat, s: GState, k: nat)
    requires i.rd != 0 && k < 32
    requires i.cmd in {ANDI, ORI, XORI, SLLI, SRLI, AND, OR, XOR, SLL, SRL}
    ensures var x, y := s.regs[i.rs1], if i.cmd in {ANDI, ORI, XORI, SLLI, SRLI} then i.imm else s.regs[i.rs2];
            var o := Step(sys, i, off, s);
            && o.Running? && o.s == s.(regs := s.regs[i.rd := o.s.regs[i.rd]])
            && Bit(o.s.regs[i.rd], k) ==
                 if i.cmd in {ANDI, AND} then (if Bit(x, k) == 1 && Bit(y, k) == 1 then 1 else 0)
                 else if i.cmd in {ORI, OR} then (if Bit(x, k) == 1 || Bit(y, k) == 1 then 1 else 0)
                 else if i.cmd in {XORI, XOR} then (if Bit(x, k) != Bit(y, k) then 1 else 0)
                 else if i.cmd in {SLLI, SLL} then (if k < y % 32 then 0 else Bit(x, k - y % 32))
                 else if k + y % 32 < 32 then Bit(x, k + y % 32) else 0
  {
    hide Bit, Step, SetReg, ImmResult, RegResult, IsImmArith, IsRegArith, OpcodeOf, Shl, Shr, And, Or, Xor;
    var x, y := s.regs[i.rs1], if i.cmd in {ANDI, ORI, XORI, SLLI, SRLI} then i.imm else s.regs[i.rs2];
    BitwiseValues(i.cmd, x, y);
    ArithIs(sys, i, off, s);
    SetRegIs(s, i.rd, if IsImmArith(i.cmd) then ImmResult(i.cmd, x, i.imm) else RegResult(i.cmd, x, s.regs[i.rs2]));
    LogicBits(x, y, k);
    ShiftBits(x, y, k);
    ShiftBits(x, y % 32, k);
  }

  lemma BitwiseValues(c: Cmd, x: Word, y: Word)
    requires c in {ANDI, ORI, XORI, SLLI, SRLI, AND, OR, XOR, SLL, SRL}
    ensures IsImmArith(c) <==> c in {ANDI, ORI, XORI, SLLI, SRLI}
    ensures IsRegArith(c) <==> c !in {ANDI, ORI, XORI, SLLI, SRLI}
    ensures var v := if IsImmArith(c) then ImmResult(c, x, y) else RegResult(c, x, y);
            v == if c in {ANDI, AND} then And(x, y) else if c in {ORI, OR} then Or(x, y) else if c in {XORI, XOR} then Xor(x, y)
                 else if c == SLLI then Shl(x, y) else if c == SRLI then Shr(x, y)
                 else if c == SLL then Shl(x, y % 32) else Shr(x, y % 32)
  {
    hide UpperHalf, TruncDiv, TruncRem, ShiftRightArith, Shl, Shr, And, Or, Xor, Add, Sub, Signed;
  }

  lemma UpperLaw(sys: Sys, i: Inst, off: nat, s: GState)
    requires i.rd != 0 && i.cmd in {LUI, AUIPC}
    ensures var pc: int := s.pc;
            Step(sys, i, off, s)
              == Running(s.(regs := s.regs[i.rd := if i.cmd == LUI then i.imm else (pc + off + i.imm) % 0x1_0000_0000]))
  {
    hide LoadBytes, StoreBytes, Extend, SysCall, BranchTaken, ImmResult, RegResult, And;
    SumOfWraps(s.pc, off, i.imm);
  }

  lemma SumOfWraps(pc: Word, off: nat, imm: Word)
    ensures Add(Add(pc, Wrap(off)), imm) == ((pc as int) + off + imm) % 0x1_0000_0000
  {
  }

  // ----- memory instructions -----

  /** The number that n bytes from a on spell, lowest first. */
  function Spelled(mem: seq<Byte>, a: nat, n: nat): (v: nat)
    requires a + n <= |mem|
    decreases n
  {
    if n == 0 then 0 else mem[a] + 0x100 * Spelled(mem, a + 1, n - 1)
  }

  predicate IsWidthOf(c: Cmd, n: nat) {
    (c in {LB, LBU, SB} && n == 1) || (c in {LH, LHU, SH} && n == 2) || (c in {LW, SW} && n == 4)
  }

  lemma LoadSpells(mem: seq<Byte>, a: nat, n: nat)
    requires n in {1, 2, 4} && a + n <= |mem|
    ensures LoadBytes(mem, a, n) == Spelled(mem, a, n)
  {
    assert Spelled(mem, a + n, 0) == 0;
    assert Spelled(mem, a + n - 1, 1) == mem[a + n - 1];
    if n >= 2 {
      assert Spelled(mem, a + n - 2, 2) == mem[a + n - 2] + 0x100 * Spelled(mem, a + n - 1, 1);
    }
    if n == 4 {
      assert Spelled(mem, a + 1, 3) == mem[a + 1] + 0x100 * Spelled(mem, a + 2, 2);
    }
  }

  /** A load throws when the byte after it is not in memory, and else rd reads, unsigned or in two's complement, as
      the number the bytes spell; in a signed load the highest bit counts negative. */
  lemma LoadLaw(sys: Sys, i: Inst, off: nat, s: GState, n: nat)
    requires i.rd != 0 && i.cmd in {LB, LH, LW, LBU, LHU} && IsWidthOf(i.cmd, n)
    ensures var a: int, imm: int := s.regs[i.rs1], i.imm;
            var va := (a + imm) % 0x1_0000_0000;
            var o := Step(sys, i, off, s);
            if va + n >= |s.mem| then o == Stopped(s)
            else
              var v := o.s.regs[i.rd];
              && o == Running(s.(regs := s.regs[i.rd := v]))
              && (if i.cmd in {LBU, LHU} then v == Spelled(s.mem, va, n)
                  else Signed(v) == Spelled(s.mem, va, n) - if s.mem[va + n - 1] >= 0x80 then Power256(n) else 0)
  {
    hide Step, StoreBytes, LoadBytes, Extend, Spelled, Signed, SetReg;
    MemoryIs(sys, i, off, s, n);
    var a: int, imm: int := s.regs[i.rs1], i.imm;
    var va := (a + imm) % 0x1_0000_0000;
    if va + n < |s.mem| {
      LoadSpells(s.mem, va, n);
      SpelledBound(s.mem, va, n);
      ExtendReads(Spelled(s.mem, va, n), s.mem[va + n - 1], n);
      SetRegIs(s, i.rd, Extend(LoadBytes(s.mem, va, n), n, i.cmd in {LB, LH, LW}));
    }
  }

  lemma MemoryIs(sys: Sys, i: Inst, off: nat, s: GState, n: nat)
    requires i.cmd in {LB, LH, LW, LBU, LHU, SB, SH, SW} && IsWidthOf(i.cmd, n)
    ensures var a: int, imm: int := s.regs[i.rs1], i.imm;
            var va := (a + imm) % 0x1_0000_0000;
            Step(sys, i, off, s) ==
              if va + n >= |s.mem| then Stopped(s)
              else if i.cmd in {SB, SH, SW} then Running(s.(mem := StoreBytes(s.mem, va, n, s.regs[i.rs2])))
              else Running(SetReg(s, i.rd, Extend(LoadBytes(s.mem, va, n), n, i.cmd in {LB, LH, LW})))
  {
    hide SysCall, BranchTaken, ImmResult, RegResult, And, StoreBytes, LoadBytes, Extend, SetReg, Signed, AccessSize, Add, Wrap;
    WidthIs(i.cmd, n);
    AddIsWrap(s.regs[i.rs1], i.imm);
    WrapIs(s.regs[i.rs1], i.imm);
  }

  lemma WidthIs(c: Cmd, n: nat)
    requires c in {LB, LH, LW, LBU, LHU, SB, SH, SW} && IsWidthOf(c, n)
    ensures OpcodeOf(c) == (if c in {SB, SH, SW} then OpStore else OpLoad) && AccessSize(c) == n
    ensures IsSignedLoad(c) <==> c in {LB, LH, LW}
  {
  }

  lemma WrapIs(x: int, y: int)
    ensures Wrap(x + y) == (x + y) % 0x1_0000_0000
  {
  }

  function Power256(n: nat): (p: nat)
    ensures p > 0
  {
    if n == 0 then 1 else 0x100 * Power256(n - 1)
  }

  lemma SpelledBound(mem: seq<Byte>, a: nat, n: nat)
    requires n in {1, 2, 4} && a + n <= |mem|
    ensures var v, top := Spelled(mem, a, n), mem[a + n - 1];
            v < Power256(n) && v / Power256(n - 1) == top
  {
    Powers256();
    LoadSpells(mem, a, n);
  }

  lemma Powers256()
    ensures Power256(0) == 1 && Power256(1) == 0x100 && Power256(2) == 0x1_0000
    ensures Power256(3) == 0x100_0000 && Power256(4) == 0x1_0000_0000
  {
    assert Power256(1) == 0x100 * Power256(0);
    assert Power256(2) == 0x100 * Power256(1);
    assert Power256(3) == 0x100 * Power256(2);
  }

  lemma ExtendReads(v: Word, top: Byte, n: nat)
    requires n in {1, 2, 4} && v < Power256(n) && v / Power256(n - 1) == top
    ensures Extend(v, n, false) == v
    ensures Signed(Extend(v, n, true)) == v - if top >= 0x80 then Power256(n) else 0
  {
    Powers256();
  }

  /** A store writes byte k of rs2 to address va + k, and nothing else changes. */
  lemma StoreLaw(sys: Sys, i: Inst, off: nat, s: GState, n: nat)
    requires i.cmd in {SB, SH, SW} && IsWidthOf(i.cmd, n)
    ensures var a: int, imm: int := s.regs[i.rs1], i.imm;
            var va := (a + imm) % 0x1_0000_0000;
            var o := Step(sys, i, off, s);
            if va + n >= |s.mem| then o == Stopped(s)
            else
              && o == Running(s.(mem := o.s.mem)) && |o.s.mem| == |s.mem|
              && forall k :: 0 <= k < |s.mem| ==>
                   o.s.mem[k] == if va <= k < va + n then s.regs[i.rs2] / Power256(k - va) % 0x100 else s.mem[k]
  {
    hide Step, LoadBytes, Extend, SetReg;
    MemoryIs(sys, i, off, s, n);
    Powers256();
  }

  // ----- the program counter -----

  predicate Follows(sys: Sys, s: GState, i: Inst) {
    Fetch(s.mem, s.pc) == Some(i) && ArchStep(sys, s).Running?
  }

  /** JAL links and jumps by twice its immediate. */
  lemma JalLaw(sys: Sys, s: GState, i: Inst)
    requires Follows(sys, s, i) && i.cmd == JAL
    ensures var pc: int, t := s.pc, ArchStep(sys, s).s;
            && t.pc == (pc + 2 * Signed(i.imm)) % 0x1_0000_0000 && t.mem == s.mem
            && t.regs == if i.rd == 0 then s.regs else s.regs[i.rd := (pc + 4) % 0x1_0000_0000]
  {
    hide Fetch, LoadBytes, StoreBytes, Extend, SysCall, BranchTaken, ImmResult, RegResult, And, Signed;
    AtOffsetZero(s.pc);
  }

  /** JALR links, and jumps to the sum with the lowest bit cleared, where rs1 is read after rd was written. */
  lemma JalrLaw(sys: Sys, s: GState, i: Inst)
    requires Follows(sys, s, i) && i.cmd == JALR
    ensures var pc: int, imm: int, t := s.pc, i.imm, ArchStep(sys, s).s;
            var linked := if i.rd == 0 then s.regs else s.regs[i.rd := (pc + 4) % 0x1_0000_0000];
            var base: int := linked[i.rs1];
            var sum := (base + imm) % 0x1_0000_0000;
            t.regs == linked && t.mem == s.mem && t.pc == sum - sum % 2
  {
    hide Fetch, LoadBytes, StoreBytes, Extend, SysCall, BranchTaken, ImmResult, RegResult, And, Signed;
    AtOffsetZero(s.pc);
    var linked := SetReg(s, i.rd, Add(s.pc, 4));
    ClearLowBit(Add(linked.regs[i.rs1], i.imm));
  }

  lemma AtOffsetZero(pc: Word)
    ensures Add(pc, Wrap(0)) == pc
  {
  }

  /** A branch changes nothing but pc: by twice its immediate when the comparison holds, else to the next word. */
  lemma BranchLaw(sys: Sys, s: GState, i: Inst)
    requires Follows(sys, s, i) && i.cmd in {BEQ, BNE, BLT, BGE, BLTU, BGEU}
    ensures var pc: int, a: int, b: int, t := s.pc, s.regs[i.rs1], s.regs[i.rs2], ArchStep(sys, s).s;
            var taken := if i.cmd == BEQ then a == b else if i.cmd == BNE then a != b
                         else if i.cmd == BLT then SignedLess(a, b) else if i.cmd == BGE then !SignedLess(a, b)
                         else if i.cmd == BLTU then a < b else a >= b;
            && t.regs == s.regs && t.mem == s.mem
            && t.pc == (if taken then (pc + 2 * Signed(i.imm)) % 0x1_0000_0000 else (pc + 4) % 0x1_0000_0000)
  {
    hide Fetch, Step, BranchTaken, SignedLess, Signed;
    BranchIs(sys, s, i);
    TakenWhen(i.cmd, s.regs[i.rs1], s.regs[i.rs2]);
    BranchEnds(i.cmd);
  }

  lemma BranchEnds(c: Cmd)
    requires c in {BEQ, BNE, BLT, BGE, BLTU, BGEU}
    ensures OpcodeOf(c) == OpBranch
  {
  }

  lemma BranchIs(sys: Sys, s: GState, i: Inst)
    requires OpcodeOf(i.cmd) == OpBranch
    ensures Step(sys, i, 0, s) ==
              Running(s.(pc := if BranchTaken(i.cmd, s.regs[i.rs1], s.regs[i.rs2]) then Wrap(s.pc + 2 * Signed(i.imm))
                               else Add(s.pc, 4)))
  {
    hide LoadBytes, StoreBytes, Extend, SysCall, ImmResult, RegResult, And, SetReg, BranchTaken, Add, Wrap, Signed;
    AtOffsetZero(s.pc);
  }

  lemma TakenWhen(c: Cmd, x: Word, y: Word)
    requires c in {BEQ, BNE, BLT, BGE, BLTU, BGEU}
    ensures OpcodeOf(c) == OpBranch
    ensures var a: int, b: int := x, y;
            BranchTaken(c, x, y) <==>
              if c == BEQ then a == b else if c == BNE then a != b
              else if c == BLT then SignedLess(a, b) else if c == BGE then !SignedLess(a, b)
              else if c == BLTU then a < b else a >= b
  {
  }

  /** Every other instruction that goes on moves pc to the next word, and all count once. */
  lemma AdvanceLaw(sys: Sys, s: GState, i: Inst)
    requires Follows(sys, s, i)
    ensures var pc: int, t := s.pc, ArchStep(sys, s).s;
            && (i.cmd !in {JAL, JALR, BEQ, BNE, BLT, BGE, BLTU, BGEU} ==> t.pc == (pc + 4) % 0x1_0000_0000)
            && t.executed == (s.executed + 1) % 0x1_0000_0000_0000_0000
  {
    hide Fetch, LoadBytes, StoreBytes, Extend, SysCall, BranchTaken, ImmResult, RegResult, And, SetReg, Signed;
    AtOffsetZero(s.pc);
    OpcodesOf(i.cmd);
  }

  lemma OpcodesOf(c: Cmd)
    ensures OpcodeOf(c) in {OpJal, OpJalr, OpBranch} <==> c in {JAL, JALR, BEQ, BNE, BLT, BGE, BLTU, BGEU}
    ensures OpcodeOf(c) == OpMiscMem <==> c == FENCE
  {
  }

  // ----- what an instruction touches and what it depends on -----

  /** Only the destination changes, and memory only by stores; system calls are apart. */
  lemma FrameLaw(sys: Sys, i: Inst, off: nat, s: GState)
    requires i.cmd != ECALL
    ensures var t := Step(sys, i, off, s).s;
            && (forall r: Reg :: !Sets(i, r) || r == 0 ==> t.regs[r] == s.regs[r])
            && (i.cmd !in {SB, SH, SW} ==> t.mem == s.mem)
  {
    hide LoadBytes, StoreBytes, Extend, SysCall, BranchTaken, ImmResult, RegResult, And, Signed, Add, Wrap;
  }

  /** The same up to one register. */
  ghost predicate SameBut(s: GState, t: GState, r: Reg) {
    s.pc == t.pc && s.mem == t.mem && s.executed == t.executed && forall x: Reg :: x != r ==> s.regs[x] == t.regs[x]
  }

  /** Instructions that set their destination; system instructions and FENCE name one and leave it alone. */
  predicate Sets(i: Inst, r: Reg) {
    i.Writes(r) && OpcodeOf(i.cmd) != OpSystem && i.cmd != FENCE
  }

  /** Two outcomes are the same up to what register r held before. */
  ghost predicate SameEffect(i: Inst, o: Outcome, u: Outcome, r: Reg) {
    o.Running? == u.Running? && SameBut(o.s, u.s, r) && (Sets(i, r) && o.Running? ==> o.s.regs[r] == u.s.regs[r])
  }

  /** What an instruction does does not depend on a register it does not read. */
  lemma ReadsLaw(sys: Sys, i: Inst, off: nat, s: GState, t: GState, r: Reg)
    requires i.cmd != ECALL && SameBut(s, t, r) && !i.Reads(r)
    ensures SameEffect(i, Step(sys, i, off, s), Step(sys, i, off, t), r)
  {
    hide Step, SameEffect, SameBut;
    match OpcodeOf(i.cmd)
    case OpImm | OpReg => ArithReads(sys, i, off, s, t, r);
    case OpLoad | OpStore => MemoryReads(sys, i, off, s, t, r);
    case OpLui | OpAuipc | OpJal | OpJalr | OpBranch | OpSystem | OpMiscMem => OthersRead(sys, i, off, s, t, r);
  }

  lemma ArithReads(sys: Sys, i: Inst, off: nat, s: GState, t: GState, r: Reg)
    requires OpcodeOf(i.cmd) in {OpImm, OpReg} && SameBut(s, t, r) && !i.Reads(r)
    ensures SameEffect(i, Step(sys, i, off, s), Step(sys, i, off, t), r)
  {
    hide Step, OpcodeOf, SetReg, ImmResult, RegResult, SameEffect, SameBut, Sets;
    SameSources(i, s, t, r);
    ArithIs(sys, i, off, s);
    ArithIs(sys, i, off, t);
    BothSet(i, s, t, r, if IsImmArith(i.cmd) then ImmResult(i.cmd, s.regs[i.rs1], i.imm)
                        else RegResult(i.cmd, s.regs[i.rs1], s.regs[i.rs2]));
  }

  lemma MemoryReads(sys: Sys, i: Inst, off: nat, s: GState, t: GState, r: Reg)
    requires OpcodeOf(i.cmd) in {OpLoad, OpStore} && SameBut(s, t, r) && !i.Reads(r)
    ensures SameEffect(i, Step(sys, i, off, s), Step(sys, i, off, t), r)
  {
    hide Step, OpcodeOf, SetReg, LoadBytes, StoreBytes, Extend, IsWidthOf, SameEffect, SameBut, Sets;
    SameSources(i, s, t, r);
    SameParts(s, t, r);
    var n := Width(i.cmd);
    MemoryIs(sys, i, off, s, n);
    MemoryIs(sys, i, off, t, n);
    var a: int, imm: int := s.regs[i.rs1], i.imm;
    var va := (a + imm) % 0x1_0000_0000;
    if va + n >= |s.mem| {
      BothStop(i, s, t, r);
    } else if i.cmd in {SB, SH, SW} {
      BothStore(i, s, t, r, StoreBytes(s.mem, va, n, s.regs[i.rs2]));
    } else {
      BothSet(i, s, t, r, Extend(LoadBytes(s.mem, va, n), n, i.cmd in {LB, LH, LW}));
    }
  }

  lemma SameParts(s: GState, t: GState, r: Reg)
    requires SameBut(s, t, r)
    ensures s.mem == t.mem && s.pc == t.pc
  {
  }

  lemma BothStop(i: Inst, s: GState, t: GState, r: Reg)
    requires SameBut(s, t, r)
    ensures SameEffect(i, Stopped(s), Stopped(t), r)
  {
  }

  lemma BothStore(i: Inst, s: GState, t: GState, r: Reg, mem: seq<Byte>)
    requires SameBut(s, t, r) && !Sets(i, r)
    ensures SameEffect(i, Running(s.(mem := mem)), Running(t.(mem := mem)), r)
  {
  }

  lemma BothSet(i: Inst, s: GState, t: GState, r: Reg, v: Word)
    requires SameBut(s, t, r)
    ensures SameEffect(i, Running(SetReg(s, i.rd, v)), Running(SetReg(t, i.rd, v)), r)
  {
  }

  lemma Width(c: Cmd) returns (n: nat)
    requires OpcodeOf(c) in {OpLoad, OpStore}
    ensures c in {LB, LH, LW, LBU, LHU, SB, SH, SW} && IsWidthOf(c, n)
    ensures OpcodeOf(c) == OpStore <==> c in {SB, SH, SW}
  {
    n := if c in {LB, LBU, SB} then 1 else if c in {LH, LHU, SH} then 2 else 4;
  }

  lemma SameSources(i: Inst, s: GState, t: GState, r: Reg)
    requires SameBut(s, t, r) && !i.Reads(r)
    ensures i.IsRs1() ==> s.regs[i.rs1] == t.regs[i.rs1]
    ensures i.IsRs2() ==> s.regs[i.rs2] == t.regs[i.rs2]
    ensures OpcodeOf(i.cmd) in {OpImm, OpLoad, OpJalr, OpSystem} ==> i.IsRs1()
    ensures OpcodeOf(i.cmd) in {OpReg, OpStore, OpBranch} ==> i.IsRs1() && i.IsRs2()
    ensures Sets(i, r) ==> i.rd == r && OpcodeOf(i.cmd) !in {OpStore, OpBranch}
  {
  }

  lemma OthersRead(sys: Sys, i: Inst, off: nat, s: GState, t: GState, r: Reg)
    requires i.cmd != ECALL && SameBut(s, t, r) && !i.Reads(r)
    requires OpcodeOf(i.cmd) in {OpLui, OpAuipc, OpJal, OpJalr, OpBranch, OpSystem, OpMiscMem}
    ensures SameEffect(i, Step(sys, i, off, s), Step(sys, i, off, t), r)
  {
    hide LoadBytes, StoreBytes, Extend, SysCall, BranchTaken, ImmResult, RegResult, And, Signed, Add, Wrap, SetReg;
    BothSet(i, s, t, r, i.imm);
    BothSet(i, s, t, r, Add(Add(s.pc, Wrap(off)), i.imm));
    BothSet(i, s, t, r, Add(Add(s.pc, Wrap(off)), 4));
  }

  // ----- the registers read are the ones that matter -----

  /** x in x1, y in x2, and sixteen zero bytes of memory. */
  function Pair(x: Word, y: Word): GState {
    StateRep(seq(32, i => if i == 1 then x else if i == 2 then y else 0), 0, seq(16, _ => 0), 0)
  }

  function Sample(c: Cmd): Inst {
    Inst(c, 3, 1, 2, 1)
  }

  lemma PairSame(x: Word, y: Word, z: Word)
    ensures SameBut(Pair(x, y), Pair(z, y), 1) && SameBut(Pair(x, y), Pair(x, z), 2)
    ensures Pair(x, y).regs[1] == x && Pair(x, y).regs[2] == y && |Pair(x, y).mem| == 16 && Pair(x, y).pc == 0
  {
  }

  /** Some two states that differ only in register r lead to different effects. */
  ghost predicate DependsOn(sys: Sys, c: Cmd, r: Reg) {
    exists s, t :: SameBut(s, t, r) && !SameEffect(Sample(c), Step(sys, Sample(c), 0, s), Step(sys, Sample(c), 0, t), r)
  }

  /** Of x1 and x2, an instruction that names them reads exactly those its effect depends on; system instructions
      and FENCE apart, which read none. */
  lemma ReadsExactly(sys: Sys, c: Cmd, r: Reg)
    requires OpcodeOf(c) != OpSystem && OpcodeOf(c) != OpMiscMem && (r == 1 || r == 2)
    ensures DependsOn(sys, c, r) <==> Sample(c).Reads(r)
  {
    hide Step, SameBut, SameEffect, Pair;
    if Sample(c).Reads(r) {
      var s, t := Witness(sys, c, r);
    } else {
      forall s, t | SameBut(s, t, r)
        ensures SameEffect(Sample(c), Step(sys, Sample(c), 0, s), Step(sys, Sample(c), 0, t), r)
      {
        ReadsLaw(sys, Sample(c), 0, s, t, r);
      }
    }
  }

  lemma Witness(sys: Sys, c: Cmd, r: Reg) returns (s: GState, t: GState)
    requires OpcodeOf(c) != OpSystem && OpcodeOf(c) != OpMiscMem && (r == 1 || r == 2) && Sample(c).Reads(r)
    ensures SameBut(s, t, r) && !SameEffect(Sample(c), Step(sys, Sample(c), 0, s), Step(sys, Sample(c), 0, t), r)
  {
    hide Step, SameBut, SameEffect, Pair;
    match OpcodeOf(c)
    case OpImm => s, t := ImmWitness(sys, c);
    case OpReg => s, t := RegWitness(sys, c, r);
    case OpLoad => s, t := AddressWitness(sys, c);
    case OpStore => if r == 1 { s, t := AddressWitness(sys, c); } else { s, t := StoreWitness(sys, c); }
    case OpJalr => s, t := JalrWitness(sys, c);
    case OpBranch => s, t := BranchWitness(sys, c, r);
  }

  lemma Differ(sys: Sys, i: Inst, s: GState, t: GState, r: Reg, v: Word, w: Word)
    requires Sets(i, i.rd) && i.rd == 3 && r != 3 && v != w
    requires Step(sys, i, 0, s) == Running(SetReg(s, 3, v)) && Step(sys, i, 0, t) == Running(SetReg(t, 3, w))
    ensures !SameEffect(i, Step(sys, i, 0, s), Step(sys, i, 0, t), r)
  {
    hide Step;
    assert SetReg(s, 3, v).regs[3] == v && SetReg(t, 3, w).regs[3] == w;
  }

  lemma ImmWitness(sys: Sys, c: Cmd) returns (s: GState, t: GState)
    requires OpcodeOf(c) == OpImm
    ensures SameBut(s, t, 1) && !SameEffect(Sample(c), Step(sys, Sample(c), 0, s), Step(sys, Sample(c), 0, t), 1)
  {
    hide Step, SameBut, SameEffect, Pair, ImmResult, SetReg;
    s, t := Pair(0, 0), Pair(3, 0);
    PairSame(0, 0, 3);
    PairSame(3, 0, 0);
    ArithIs(sys, Sample(c), 0, s);
    ArithIs(sys, Sample(c), 0, t);
    ImmDiffers(c);
    Differ(sys, Sample(c), s, t, 1, ImmResult(c, 0, 1), ImmResult(c, 3, 1));
  }

  lemma ImmDiffers(c: Cmd)
    requires OpcodeOf(c) == OpImm
    ensures ImmResult(c, 0, 1) != ImmResult(c, 3, 1)
  {
    SmallBits();
    hide And, Or, Xor, Shl, Shr, ShiftRightArith;
  }

  lemma SmallBits()
    ensures And(0, 1) == 0 && And(3, 1) == 1 && Or(0, 1) == 1 && Or(3, 1) == 3 && Xor(0, 1) == 1 && Xor(3, 1) == 2
    ensures And(1, 0) == 0 && And(1, 1) == 1 && Or(0, 0) == 0 && Xor(0, 0) == 0
    ensures forall x: Word :: Shl(x, 0) == x && Shr(x, 0) == x
    ensures Shl(0, 1) == 0 && Shl(3, 1) == 6 && Shl(1, 1) == 2 && Shr(0, 1) == 0 && Shr(3, 1) == 1 && Shr(1, 1) == 0
    ensures forall x: Word, n: nat :: x < 0x8000_0000 ==> ShiftRightArith(x, n) == Shr(x, n)
  {
    SmallLogic();
    SmallShifts();
    forall x: Word, n: nat | x < 0x8000_0000
      ensures ShiftRightArith(x, n) == Shr(x, n)
    {
      hide BitOr, Pow2;
      BitOrZero(Shr(x, n));
    }
  }

  lemma SmallLogic()
    ensures And(0, 1) == 0 && And(3, 1) == 1 && Or(0, 1) == 1 && Or(3, 1) == 3 && Xor(0, 1) == 1 && Xor(3, 1) == 2
    ensures And(1, 0) == 0 && And(1, 1) == 1 && Or(0, 0) == 0 && Xor(0, 0) == 0
  {
    assert BitAnd(1, 0) == 0 && BitOr(1, 0) == 1 && BitXor(1, 0) == 1;
  }

  lemma SmallShifts()
    ensures forall x: Word :: Shl(x, 0) == x && Shr(x, 0) == x
    ensures Shl(0, 1) == 0 && Shl(3, 1) == 6 && Shl(1, 1) == 2 && Shr(0, 1) == 0 && Shr(3, 1) == 1 && Shr(1, 1) == 0
  {
    Pow2Halves(0);
    Pow2Halves(1);
    hide Pow2;
  }

  lemma RegWitness(sys: Sys, c: Cmd, r: Reg) returns (s: GState, t: GState)
    requires OpcodeOf(c) == OpReg && (r == 1 || r == 2)
    ensures SameBut(s, t, r) && !SameEffect(Sample(c), Step(sys, Sample(c), 0, s), Step(sys, Sample(c), 0, t), r)
  {
    hide Step, SameBut, SameEffect, Pair, RegResult, SetReg;
    var x, y, z := RegSamples(c, r);
    s := Pair(x, y);
    t := if r == 1 then Pair(z, y) else Pair(x, z);
    PairSame(x, y, z);
    PairSame(z, y, x);
    PairSame(x, z, y);
    ArithIs(sys, Sample(c), 0, s);
    ArithIs(sys, Sample(c), 0, t);
    Differ(sys, Sample(c), s, t, r, RegResult(c, x, y), if r == 1 then RegResult(c, z, y) else RegResult(c, x, z));
  }

  lemma RegSamples(c: Cmd, r: Reg) returns (x: Word, y: Word, z: Word)
    requires OpcodeOf(c) == OpReg && (r == 1 || r == 2)
    ensures RegResult(c, x, y) != if r == 1 then RegResult(c, z, y) else RegResult(c, x, z)
  {
    hide RegResult;
    if c in {MULH, MULHSU, MULHU} {
      x, y, z := HighSamples(c, r);
    } else if c in {DIV, DIVU, REM, REMU} {
      x, y, z := DivisionSamples(c, r);
    } else {
      x, y, z := PlainSamples(c, r);
    }
  }

  lemma PlainSamples(c: Cmd, r: Reg) returns (x: Word, y: Word, z: Word)
    requires c in {ADD, SUB, SLL, SLT, SLTU, XOR, SRL, SRA, OR, AND, MUL} && (r == 1 || r == 2)
    ensures RegResult(c, x, y) != if r == 1 then RegResult(c, z, y) else RegResult(c, x, z)
  {
    SmallBits();
    hide And, Or, Xor, Shl, Shr, ShiftRightArith, TruncDiv, TruncRem, UpperHalf;
    if r == 1 {
      x, y, z := 0, 1, 3;
    } else {
      x, y, z := if c in {ADD, SUB, XOR, OR, SLT, SLTU} then 0 else 1, 0, 1;
    }
  }

  lemma HighSamples(c: Cmd, r: Reg) returns (x: Word, y: Word, z: Word)
    requires c in {MULH, MULHSU, MULHU} && (r == 1 || r == 2)
    ensures RegResult(c, x, y) != if r == 1 then RegResult(c, z, y) else RegResult(c, x, z)
  {
    hide And, Or, Xor, Shl, Shr, ShiftRightArith, TruncDiv, TruncRem;
    if r == 1 {
      x, y, z := 0, HALF, 2;
      assert Signed(HALF) == -0x8000_0000 && Signed(0) == 0 && Signed(2) == 2;
    } else {
      x, y, z := 0xFFFF_FFFF, 0, 2;
      assert Signed(0xFFFF_FFFF) == -1 && Signed(0) == 0 && Signed(2) == 2;
    }
  }

  lemma DivisionSamples(c: Cmd, r: Reg) returns (x: Word, y: Word, z: Word)
    requires c in {DIV, DIVU, REM, REMU} && (r == 1 || r == 2)
    ensures RegResult(c, x, y) != if r == 1 then RegResult(c, z, y) else RegResult(c, x, z)
  {
    hide And, Or, Xor, Shl, Shr, ShiftRightArith, UpperHalf;
    if r == 1 {
      x, y, z := 0, if c in {REM, REMU} then 4 else 1, 3;
    } else {
      x, y, z := 1, 0, 1;
    }
  }

  /** One address is in memory, the other is not. */
  lemma AddressWitness(sys: Sys, c: Cmd) returns (s: GState, t: GState)
    requires OpcodeOf(c) in {OpLoad, OpStore}
    ensures SameBut(s, t, 1) && !SameEffect(Sample(c), Step(sys, Sample(c), 0, s), Step(sys, Sample(c), 0, t), 1)
  {
    hide Step, SameBut, SameEffect, Pair, SetReg, LoadBytes, StoreBytes, Extend, IsWidthOf, OpcodeOf;
    s, t := Pair(0, 0), Pair(100, 0);
    PairSame(0, 0, 100);
    PairSame(100, 0, 0);
    var n := Width(c);
    assert n <= 4 by { WidthSmall(c, n); }
    MemoryIs(sys, Sample(c), 0, s, n);
    MemoryIs(sys, Sample(c), 0, t, n);
    assert s.regs[1] == 0 && t.regs[1] == 100;
    OneStops(Sample(c), Step(sys, Sample(c), 0, s), Step(sys, Sample(c), 0, t), 1);
  }

  lemma OneStops(i: Inst, o: Outcome, u: Outcome, r: Reg)
    requires o.Running? && u.Stopped?
    ensures !SameEffect(i, o, u, r)
  {
  }

  lemma WidthSmall(c: Cmd, n: nat)
    requires IsWidthOf(c, n)
    ensures n in {1, 2, 4}
  {
  }

  lemma StoreWitness(sys: Sys, c: Cmd) returns (s: GState, t: GState)
    requires OpcodeOf(c) == OpStore
    ensures SameBut(s, t, 2) && !SameEffect(Sample(c), Step(sys, Sample(c), 0, s), Step(sys, Sample(c), 0, t), 2)
  {
    hide Step, SameBut, Pair, IsWidthOf, OpcodeOf;
    s, t := Pair(0, 0), Pair(0, 1);
    PairSame(0, 0, 1);
    PairSame(0, 1, 0);
    var n := Width(c);
    WidthSmall(c, n);
    StoreLaw(sys, Sample(c), 0, s, n);
    StoreLaw(sys, Sample(c), 0, t, n);
    Powers256();
    var o, u := Step(sys, Sample(c), 0, s), Step(sys, Sample(c), 0, t);
    assert o.s.mem[1] == 0 && u.s.mem[1] == 1;
    MemoryDiffers(Sample(c), o, u, 2);
  }

  lemma MemoryDiffers(i: Inst, o: Outcome, u: Outcome, r: Reg)
    requires o.s.mem != u.s.mem || o.s.pc != u.s.pc
    ensures !SameEffect(i, o, u, r)
  {
  }

  lemma JalrWitness(sys: Sys, c: Cmd) returns (s: GState, t: GState)
    requires c == JALR
    ensures SameBut(s, t, 1) && !SameEffect(Sample(c), Step(sys, Sample(c), 0, s), Step(sys, Sample(c), 0, t), 1)
  {
    hide Step, SameBut, SameEffect, Pair, And;
    s, t := Pair(0, 0), Pair(4, 0);
    PairSame(0, 0, 4);
    PairSame(4, 0, 0);
    JalrIs(sys, s);
    JalrIs(sys, t);
    ClearLowBit(Add(0, 1));
    ClearLowBit(Add(4, 1));
    MemoryDiffers(Sample(c), Step(sys, Sample(c), 0, s), Step(sys, Sample(c), 0, t), 1);
  }

  lemma JalrIs(sys: Sys, s: GState)
    ensures Step(sys, Sample(JALR), 0, s).s.pc == And(Add(s.regs[1], 1), 0xFFFF_FFFE)
  {
    hide LoadBytes, StoreBytes, Extend, SysCall, BranchTaken, ImmResult, RegResult, And, Signed, Add, Wrap;
  }

  lemma BranchWitness(sys: Sys, c: Cmd, r: Reg) returns (s: GState, t: GState)
    requires OpcodeOf(c) == OpBranch && (r == 1 || r == 2)
    ensures SameBut(s, t, r) && !SameEffect(Sample(c), Step(sys, Sample(c), 0, s), Step(sys, Sample(c), 0, t), r)
  {
    hide Step, SameBut, SameEffect, Pair;
    var x, y, z := BranchSamples(c, r);
    s := Pair(x, y);
    t := if r == 1 then Pair(z, y) else Pair(x, z);
    PairSame(x, y, z);
    PairSame(z, y, x);
    PairSame(x, z, y);
    BranchIs(sys, s, Sample(c));
    BranchIs(sys, t, Sample(c));
    assert Signed(1) == 1 && Wrap(2) == 2 && Add(0, 4) == 4;
    MemoryDiffers(Sample(c), Step(sys, Sample(c), 0, s), Step(sys, Sample(c), 0, t), r);
  }

  lemma BranchSamples(c: Cmd, r: Reg) returns (x: Word, y: Word, z: Word)
    requires OpcodeOf(c) == OpBranch && (r == 1 || r == 2)
    ensures BranchTaken(c, x, y) != if r == 1 then BranchTaken(c, z, y) else BranchTaken(c, x, z)
  {
    if r == 1 {
      x, y, z := if c in {BEQ, BNE} then 1 else 0, 1, 3;
    } else {
      x, y, z := 0, 0, 1;
    }
  }
}
