/** Every template carries out its instruction exactly when its side condition holds. */
module TemplateCorrect {
  import opened Words
  import opened Isa
  import opened Guest
  import opened Rv32m
  import opened Host
  import opened Alloc
  import opened Templates
  import opened TemplateLaws

  /** The guest's memory buffer fits in the host's address space. */
  predicate Fits(m: Machine) {
    m.base + |m.g.mem| <= TWO64
  }

  /** Only the destination may hold a value that is not the guest's, and only if it is not read. */
  predicate MaySkip(i: Inst, skip: int) {
    skip == 0 || (i.IsRd() && skip == i.rd && !i.Reads(i.rd))
  }

  lemma PlacesOk(a: Allocation, r: Reg)
    requires Inv(a)
    ensures IsPlace(RegOpnd(a, r)) && (RegOpnd(a, r).IsImm() <==> r == 0)
  {
  }

  lemma PlacesDiffer(a: Allocation, r: Reg, t: Reg)
    requires Inv(a)
    ensures RegOpnd(a, r) == RegOpnd(a, t) <==> r == t
  {
  }

  /** Code that writes v to the operand of rd, and otherwise only temporaries, sets register rd. */
  lemma SetsRegister(a: Allocation, s: GState, m: Machine, n: Machine, rd: Reg, v: Word, skip: int)
    requires Inv(a) && Rep(a, s, m, skip) && (skip == 0 || skip == rd)
    requires SameButTemps(Write(RegOpnd(a, rd), v, m), n)
    ensures Rep(a, SetReg(s, rd, v), n, 0) && n.base == m.base
  {
    if rd == 0 {
      SkipsNothing(a, s, m, skip);
      TempsAreFree(a, s, m, n, 0);
    } else {
      WriteRegister(a, s, m, rd, v, skip);
      TempsAreFree(a, SetReg(s, rd, v), Write(a.place[rd], v, m), n, 0);
    }
  }

  lemma SkipsNothing(a: Allocation, s: GState, m: Machine, skip: int)
    requires Rep(a, s, m, skip) && skip == 0
    ensures Rep(a, s, m, 0)
  {
  }

  // ----- immediate instructions -----

  lemma AddZero(x: Word)
    ensures Add(x, 0) == x && Add(0, x) == x
  {
  }

  /** x86 takes the shift amount modulo 32 and shifts arithmetically; the interpreter masks. */
  lemma ImmOpMeans(c: Cmd, x: Word, imm: Word)
    requires c in {ADDI, XORI, ORI, ANDI, SLLI, SRLI, SRAI}
    ensures BinFn(ImmOp(c), x, imm) == ImmResult(c, x, imm)
  {
    hide Shl, Shr, Sar, Xor, Or, And, Add, Sub, ShiftRightArith;
    if c == SRAI {
      SraAnyAmount(x, imm);
    } else if c == SLLI {
      ShlModulo(x, imm);
    } else if c == SRLI {
      ShrModulo(x, imm);
    }
  }

  lemma ShlModulo(x: Word, n: nat)
    ensures Shl(x, n) == Shl(x, n % 32)
  {
  }

  lemma ImmArithComputes(c: Cmd, d: Operand, s1: Operand, imm: Word, m: Machine)
    requires IsImmArith(c) && IsPlace(d) && IsPlace(s1)
    requires c in {SLTI, SLTIU} ==> d.IsImm() || !s1.IsImm()
    ensures SameButTemps(Write(d, ImmResult(c, Read(s1, m), imm), m), Run(ImmArithCode(c, d, s1, imm), m))
  {
    var x := Read(s1, m);
    if c == ADDI && s1.IsImm() {
      AddZero(imm);
      RunMove(d, Imm(Signed(imm)), m);
    } else if c == ADDI && imm == 0 {
      AddZero(x);
      CopyComputes(d, s1, m);
    } else if c == SLTI || c == SLTIU {
      SetImmComputes(c, d, s1, imm, m);
    } else {
      ImmOpMeans(c, x, imm);
      ImmTypeComputes(d, s1, imm, ImmOp(c), m);
    }
  }

  lemma NothingSet(d: Operand, c: Cond, front: seq<Instr>)
    requires d.IsImm()
    ensures front + SetFlag(d, c) == front
  {
  }

  lemma CompareIsQuiet(s: Operand, t: Operand, m: Machine)
    ensures SameButTemps(m, Run(Emit(Cmp(s, t)), m))
  {
  }

  /** setl and setb after a compare are the guest's set-if-less-than. */
  lemma SetMeans(x: Word, y: Word)
    ensures Bool(Holds(CondL, CompareFlags(x, y))) == Bool(Signed(x) < Signed(y))
    ensures Bool(Holds(CondB, CompareFlags(x, y))) == Bool(x < y)
  {
  }

  lemma CompareImmThenSet(d: Operand, s1: Operand, t: Operand, c: Cond, m: Machine)
    requires IsPlace(d) && IsPlace(s1) && t.IsImm() && (d.IsImm() || !s1.IsImm())
    ensures SameButTemps(Write(d, Bool(Holds(c, CompareFlags(Read(s1, m), Read(t, m)))), m),
                         Run(Emit(Cmp(s1, t)) + SetFlag(d, c), m))
  {
    var v := Bool(Holds(c, CompareFlags(Read(s1, m), Read(t, m))));
    RunEmit(Cmp(s1, t), m);
    CompareIsQuiet(s1, t, m);
    hide Holds, CompareFlags, Run, SameButTemps, Bool, SetFlag;
    if d.IsImm() {
      NothingSet(d, c, Emit(Cmp(s1, t)));
      WriteNothing(d, v, m);
    } else {
      CompareThenSet(Emit(Cmp(s1, t)), d, c, Read(s1, m), Read(t, m), m);
    }
  }

  lemma SetImmComputes(c: Cmd, d: Operand, s1: Operand, imm: Word, m: Machine)
    requires c in {SLTI, SLTIU} && IsPlace(d) && IsPlace(s1) && (d.IsImm() || !s1.IsImm())
    ensures SameButTemps(Write(d, ImmResult(c, Read(s1, m), imm), m), Run(ImmArithCode(c, d, s1, imm), m))
  {
    hide Holds, CompareFlags, Run, SameButTemps, Emit, Bool, SetFlag, Shl, Shr, Xor, Or, And, ShiftRightArith, Add, Write;
    SetMeans(Read(s1, m), imm);
    if c == SLTI {
      CompareImmThenSet(d, s1, Imm(Signed(imm)), CondL, m);
    } else {
      CompareImmThenSet(d, s1, Imm(imm), CondB, m);
    }
  }

  lemma WriteNothing(d: Operand, v: Word, m: Machine)
    requires d.IsImm()
    ensures Write(d, v, m) == m
  {
  }

  // ----- register instructions -----

  lemma RegOpMeans(c: Cmd, x: Word, y: Word)
    requires c in {ADD, SUB, XOR, OR, AND, SLL, SRL, SRA}
    ensures BinFn(RegOp(c), x, y) == RegResult(c, x, y)
  {
    hide Shl, Shr, Sar, Xor, Or, And, Add, Sub, Wrap, TruncDiv, TruncRem, UpperHalf, ShiftRightArith;
    if c == SRA {
      SraAnyAmount(x, y % 32);
    }
  }

  lemma DroppedAndOfZero(y: Word)
    ensures And(0, y) == 0
  {
  }

  /** Side condition of the register templates, on operands. */
  predicate RegArithOk(c: Cmd, d: Operand, s1: Operand, s2: Operand)
    requires IsRegArith(c)
  {
    match c
    case ADD | SUB | XOR | OR => !DropsRegType(d, s1, s2)
    case AND => !DropsRegType(d, s1, s2) || s1.IsImm()
    case MUL => d.IsImm() || !s2.IsImm() || s1.IsImm()
    case MULH => d.IsImm() || !s2.IsImm()
    case SLL | SRL | SRA => d.IsImm() || s2.IsImm() || s1.IsImm() || (d != R(ECX) && (d != s2 || d == s1))
    case SLT | SLTU => true
    case _ => false
  }

  /** With an x0 operand ADD first copies the other one and then adds all the same. */
  lemma AddAfterCopy(d: Operand, s1: Operand, s2: Operand, m: Machine)
    requires IsPlace(d) && IsPlace(s1) && IsPlace(s2) && !DropsRegType(d, s1, s2)
    requires s1.IsImm() || s2.IsImm()
    ensures var src := if s1.IsImm() then s2 else s1;
      SameButTemps(Write(d, Add(Read(s1, m), Read(s2, m)), m), Run(CopyType(d, src) + RegType(d, s1, s2, AddB), m))
  {
    var src := if s1.IsImm() then s2 else s1;
    var copy, rest, x := CopyType(d, src), RegType(d, s1, s2, AddB), Read(src, m);
    var m1 := Run(copy, m);
    CopyComputes(d, src, m);
    RunAppend(copy, rest, m);
    RegTypeComputes(d, s1, s2, AddB, m1);
    SameReads(s1, Write(d, x, m), m1);
    SameReads(s2, Write(d, x, m), m1);
    ReadAfterWrite(s1, d, x, m);
    ReadAfterWrite(s2, d, x, m);
    AddZero(x);
    AddIsBin(Read(s1, m1), Read(s2, m1));
    ReadZero(s1, m, m1);
    ReadZero(s2, m, m1);
    hide *;
    AddAgain(d, x, Add(Read(s1, m1), Read(s2, m1)), m, m1, Run(rest, m1));
  }

  lemma ReadZero(s: Operand, m: Machine, n: Machine)
    ensures s == Imm(0) ==> Read(s, m) == 0 && Read(s, n) == 0
  {
  }

  lemma AddComputes(c: Cmd, d: Operand, s1: Operand, s2: Operand, m: Machine)
    requires IsRegArith(c) && c == ADD && IsPlace(d) && IsPlace(s1) && IsPlace(s2) && !DropsRegType(d, s1, s2)
    ensures SameButTemps(Write(d, Add(Read(s1, m), Read(s2, m)), m), Run(RegArithCode(c, d, s1, s2), m))
  {
    hide Run, CopyType, RegType, SameButTemps, Write, Read, Add, Compare, SetFlag, MulType, ShiftType;
    if s1.IsImm() || s2.IsImm() {
      AddAfterCopy(d, s1, s2, m);
    } else {
      var rest := RegType(d, s1, s2, AddB);
      assert RegArithCode(ADD, d, s1, s2) == [] + rest == rest;
      RegTypeComputes(d, s1, s2, AddB, m);
    }
  }

  lemma AddIsBin(x: Word, y: Word)
    ensures BinFn(AddB, x, y) == Add(x, y)
  {
  }

  lemma AddAgain(d: Operand, x: Word, v: Word, m: Machine, m1: Machine, m2: Machine)
    requires SameButTemps(Write(d, x, m), m1) && SameButTemps(Write(d, v, m1), m2)
    ensures SameButTemps(Write(d, v, m), m2)
  {
  }

  lemma ShiftComputes(c: Cmd, d: Operand, s1: Operand, s2: Operand, m: Machine)
    requires c in {SLL, SRL, SRA} && RegArithOk(c, d, s1, s2)
    requires IsPlace(d) && IsPlace(s1) && IsPlace(s2)
    ensures SameButTemps(Write(d, RegResult(c, Read(s1, m), Read(s2, m)), m), Run(RegArithCode(c, d, s1, s2), m))
  {
    hide BinFn, RegResult, Run, ShiftType, SameButTemps, Write, Read;
    var x, y := Read(s1, m), Read(s2, m);
    ShiftTypeComputes(d, s1, s2, RegOp(c), m);
    RegOpMeans(c, x, y);
    ShiftByZero(RegOp(c), x);
    ShiftOfZero(RegOp(c), Read(if s2 == d then s1 else s2, m));
    ShiftOfZero(RegOp(c), y);
    ReadZero(s1, m, m);
    ReadZero(s2, m, m);
    if d.IsImm() {
      WriteToImmediate(d, ShiftValue(d, s1, s2, RegOp(c), m), RegResult(c, x, y), m);
    }
  }

  lemma WriteToImmediate(d: Operand, u: Word, v: Word, m: Machine)
    requires d.IsImm()
    ensures Write(d, u, m) == Write(d, v, m)
  {
  }

  lemma SetComputes(c: Cmd, d: Operand, s1: Operand, s2: Operand, m: Machine)
    requires c in {SLT, SLTU} && IsPlace(d) && IsPlace(s1) && IsPlace(s2)
    ensures SameButTemps(Write(d, RegResult(c, Read(s1, m), Read(s2, m)), m), Run(RegArithCode(c, d, s1, s2), m))
  {
    hide Holds, CompareFlags, Run, SameButTemps, Bool, SetFlag, Compare, Write, Read;
    var x, y := Read(s1, m), Read(s2, m);
    CompareComputes(s1, s2, m);
    SetMeans(x, y);
    if c == SLT {
      CompareThenSet(Compare(s1, s2), d, CondL, x, y, m);
    } else {
      CompareThenSet(Compare(s1, s2), d, CondB, x, y, m);
    }
  }

  lemma MulComputes(c: Cmd, d: Operand, s1: Operand, s2: Operand, m: Machine)
    requires c in {MUL, MULH} && RegArithOk(c, d, s1, s2)
    requires IsPlace(d) && IsPlace(s1) && IsPlace(s2)
    requires c == MULH && !d.IsImm() ==> MulhCorrection(Read(s1, m), Read(s2, m)) == 0
    ensures SameButTemps(Write(d, RegResult(c, Read(s1, m), Read(s2, m)), m), Run(RegArithCode(c, d, s1, s2), m))
  {
    hide Run, MulType, SameButTemps, Read, MulhCorrection;
    var x, y := Read(s1, m), Read(s2, m);
    var half := if c == MUL then EAX else EDX;
    MulTypeComputes(d, s1, s2, half, m);
    UnsignedVersusSignedHigh(x, y);
    ReadZero(s1, m, m);
    if d.IsImm() {
      WriteToImmediate(d, MulValue(s1, s2, half, m), RegResult(c, x, y), m);
    }
  }

  lemma LogicComputes(c: Cmd, d: Operand, s1: Operand, s2: Operand, m: Machine)
    requires c in {SUB, XOR, OR, AND} && RegArithOk(c, d, s1, s2)
    requires IsPlace(d) && IsPlace(s1) && IsPlace(s2)
    ensures SameButTemps(Write(d, RegResult(c, Read(s1, m), Read(s2, m)), m), Run(RegArithCode(c, d, s1, s2), m))
  {
    hide BinFn, Run, RegType, SameButTemps, Write;
    var x, y := Read(s1, m), Read(s2, m);
    RegTypeComputes(d, s1, s2, RegOp(c), m);
    RegOpMeans(c, x, y);
    if c == AND && DropsRegType(d, s1, s2) {
      DroppedAndOfZero(y);
      ReadZero(s1, m, m);
    }
  }

  lemma RegArithComputes(c: Cmd, d: Operand, s1: Operand, s2: Operand, m: Machine)
    requires IsRegArith(c) && RegArithOk(c, d, s1, s2)
    requires IsPlace(d) && IsPlace(s1) && IsPlace(s2)
    requires c == MULH && !d.IsImm() ==> MulhCorrection(Read(s1, m), Read(s2, m)) == 0
    ensures SameButTemps(Write(d, RegResult(c, Read(s1, m), Read(s2, m)), m), Run(RegArithCode(c, d, s1, s2), m))
  {
    hide RegArithCode, RegResult, SameButTemps, Run, Write, Read;
    if c == ADD {
      AddComputes(c, d, s1, s2, m);
      AddIsResult(Read(s1, m), Read(s2, m));
    } else if c in {SLL, SRL, SRA} {
      ShiftComputes(c, d, s1, s2, m);
    } else if c in {SLT, SLTU} {
      SetComputes(c, d, s1, s2, m);
    } else if c in {MUL, MULH} {
      MulComputes(c, d, s1, s2, m);
    } else {
      LogicComputes(c, d, s1, s2, m);
    }
  }

  lemma AddIsResult(x: Word, y: Word)
    ensures RegResult(ADD, x, y) == Add(x, y)
  {
  }

  // ----- instructions that use or set the pc -----

  lemma AuipcComputes(d: Operand, off: nat, imm: Word, m: Machine)
    requires IsPlace(d)
    ensures SameButTemps(Write(d, Add(m.g.pc, Wrap(off + imm)), m), Run(AuipcCode(d, off, imm), m))
  {
    hide BinFn, Run, Move, Emit, SameButTemps;
    AddIsBin(m.g.pc, Wrap(off + imm));
    ResultThroughEax(d, PcField, Imm(off + imm), AddB, m);
  }

  lemma PcSum(pc: Word, off: int, k: int)
    ensures Add(pc, Wrap(off + k)) == Wrap(Add(pc, Wrap(off)) + k)
  {
  }

  lemma LinkComputes(d: Operand, k: nat, m: Machine)
    requires IsPlace(d)
    ensures SameButTemps(Write(d, Add(m.g.pc, Wrap(k)), m), Run(LinkCode(d, k), m))
  {
    hide Run, Move, Emit, SameButTemps, Write;
    if d.IsImm() {
      RunNothing(m);
      WriteNothing(d, Add(m.g.pc, Wrap(k)), m);
      SameRefl(m);
    } else {
      MoveThroughEax(d, PcField, m);
      BinAfterCopy(Move(R(EAX), PcField) + Move(d, R(EAX)), d, PcField, AddB, Imm(k), m);
      AddIsBin(m.g.pc, Wrap(k));
    }
  }

  /** The link value goes to rd first, then pc moves on. */
  lemma JalComputes(d: Operand, off: nat, imm: Word, m: Machine)
    requires IsPlace(d)
    ensures SameButTemps(Write(PcField, Add(m.g.pc, Wrap(off + 2 * Signed(imm))), Write(d, Add(m.g.pc, Wrap(off + 4)), m)),
                         Run(JalCode(d, off, imm), m))
  {
    hide Run, LinkCode, Emit, Add, Wrap, SameButTemps, Write;
    var k, v := off + 2 * Signed(imm), Add(m.g.pc, Wrap(off + 4));
    LinkComputes(d, off + 4, m);
    RunAppend(LinkCode(d, off + 4), Emit(Bin(AddB, PcField, Imm(k))), m);
    AdvancePc(k, d, v, m, Run(LinkCode(d, off + 4), m));
  }

  /** add pc, k after code that wrote v to d */
  lemma AdvancePc(k: int, d: Operand, v: Word, m: Machine, m1: Machine)
    requires IsPlace(d) && SameButTemps(Write(d, v, m), m1)
    ensures SameButTemps(Write(PcField, Add(m.g.pc, Wrap(k)), Write(d, v, m)), Run(Emit(Bin(AddB, PcField, Imm(k))), m1))
  {
  }

  lemma SetsPc(a: Allocation, s: GState, m: Machine, n: Machine, target: Word)
    requires Inv(a) && Rep(a, s, m, 0) && SameButTemps(Write(PcField, target, m), n)
    ensures Rep(a, s.(pc := target), n, 0) && n.base == m.base
  {
  }

  /** mov eax, s; add eax, imm; and eax, ~1; mov pc, eax */
  lemma JumpComputes(s: Operand, imm: Word, m: Machine)
    requires IsPlace(s)
    ensures SameButTemps(Write(PcField, And(Add(Read(s, m), imm), 0xFFFF_FFFE), m), Run(JumpCode(s, imm), m))
  {
    hide BinFn, Run, Move, Emit, Add, And;
    var x, y := Move(R(EAX), s) + Emit(Bin(AddB, R(EAX), Imm(Signed(imm)))), Emit(Bin(AndB, R(EAX), Imm(0xFFFF_FFFE)));
    var u, v := Add(Read(s, m), imm), And(Add(Read(s, m), imm), 0xFFFF_FFFE);
    var m1 := Run(x, m);
    var m2 := Run(y, m1);
    MoveThenBin(R(EAX), s, AddB, Imm(Signed(imm)), m);
    Run3(x, y, Move(PcField, R(EAX)), m);
    RunBin(AndB, R(EAX), Imm(0xFFFF_FFFE), m1);
    RunMove(PcField, R(EAX), m2);
    AddIsBin(Read(s, m), imm);
    AndIsBin(u, 0xFFFF_FFFE);
    assert EqButFlags(Write(R(EAX), v, m1), m2);
    TempChain(u, m, m1);
    SameAfterTemp(EAX, v, m1, m2);
    SameTrans(m, m1, m2);
    ReadBack(R(EAX), R(EAX), v, m1, m2);
    SameWrites(PcField, v, m, m2, Run(Move(PcField, R(EAX)), m2));
  }

  lemma AndIsBin(x: Word, y: Word)
    ensures BinFn(AndB, x, y) == And(x, y)
  {
  }

  lemma TempChain(u: Word, m: Machine, n: Machine)
    requires SameButTemps(Write(R(EAX), u, m), n)
    ensures SameButTemps(m, n)
  {
  }

  lemma JalrComputes(d: Operand, s: Operand, off: nat, imm: Word, m: Machine)
    requires IsPlace(d) && IsPlace(s)
    ensures var link := Write(d, Add(m.g.pc, Wrap(off + 4)), m);
      SameButTemps(Write(PcField, And(Add(Read(s, link), imm), 0xFFFF_FFFE), link), Run(JalrCode(d, s, off, imm), m))
  {
    hide BinFn, Run, Move, Emit, Add, And, JumpCode;
    var x, y := Emit(Bin(AddB, PcField, Imm(off + 4))), Move(R(EAX), PcField) + Move(d, R(EAX));
    var m1 := Run(x, m);
    var m2 := Run(y, m1);
    var v := Add(m.g.pc, Wrap(off + 4));
    RunBin(AddB, PcField, Imm(off + 4), m);
    AddIsBin(m.g.pc, Wrap(off + 4));
    MoveThroughEax(d, PcField, m1);
    Run3(x, y, JumpCode(s, imm), m);
    JumpComputes(s, imm, m2);
    ReadBack(PcField, PcField, v, m, m1);
    LinkThenJump(d, s, v, imm, m, m1, m2, Run(JumpCode(s, imm), m2));
  }

  lemma LinkThenJump(d: Operand, s: Operand, v: Word, imm: Word, m: Machine, m1: Machine, m2: Machine, m3: Machine)
    requires IsPlace(d) && IsPlace(s)
    requires EqButFlags(Write(PcField, v, m), m1) && SameButTemps(Write(d, v, m1), m2)
    requires SameButTemps(Write(PcField, And(Add(Read(s, m2), imm), 0xFFFF_FFFE), m2), m3)
    ensures var link := Write(d, v, m);
      SameButTemps(Write(PcField, And(Add(Read(s, link), imm), 0xFFFF_FFFE), link), m3)
  {
  }

  // ----- every instruction but the conditional branches -----

  /** A load whose operands are acceptable, and what its template needs of the machine. */
  lemma LoadStep(sys: Sys, i: Inst, off: nat, s: GState)
    requires OpcodeOf(i.cmd) == OpLoad && OperandsOk(i, s)
    ensures var va, n := s.regs[i.rs1] + Signed(i.imm), AccessSize(i.cmd);
            && 0 <= va && va + n <= |s.mem|
            && Step(sys, i, off, s) == Running(SetReg(s, i.rd, Extend(LoadBytes(s.mem, va, n), n, IsSignedLoad(i.cmd))))
  {
  }

  lemma LoadPlain(a: Allocation, i: Inst, off: nat)
    requires OpcodeOf(i.cmd) == OpLoad
    ensures PlainCode(a, i, off) == LoadType(RegOpnd(a, i.rd), RegOpnd(a, i.rs1), i.imm, AccessSize(i.cmd), IsSignedLoad(i.cmd))
  {
  }

  lemma IsInBuffer(m: Machine, va: int, n: nat)
    requires Fits(m) && IsSize(n) && 0 <= va && va + n <= |m.g.mem|
    ensures InBuffer(m, va, n)
  {
  }

  lemma LoadMay(i: Inst, skip: int)
    requires MaySkip(i, skip) && OpcodeOf(i.cmd) == OpLoad
    ensures (skip == 0 || skip == i.rd) && (i.rs1 == 0 || i.rs1 != skip)
  {
  }

  lemma LoadCorrect(sys: Sys, a: Allocation, i: Inst, off: nat, s: GState, m: Machine, skip: int)
    requires Inv(a) && OpcodeOf(i.cmd) == OpLoad && OperandsOk(i, s)
    requires Rep(a, s, m, skip) && MaySkip(i, skip) && Fits(m)
    ensures var o := Step(sys, i, off, s);
      o.Running? && Rep(a, o.s, Run(PlainCode(a, i, off), m), 0) && Run(PlainCode(a, i, off), m).base == m.base
  {
    hide *;
    var va, n := s.regs[i.rs1] + Signed(i.imm), AccessSize(i.cmd);
    RepMemory(a, s, m, skip);
    LoadMay(i, skip);
    LoadStep(sys, i, off, s);
    LoadPlain(a, i, off);
    IsInBuffer(m, va, n);
    PlacesOk(a, i.rd);
    PlacesOk(a, i.rs1);
    ReadsTheGuest(a, s, m, skip, i.rs1);
    LoadTypeComputes(RegOpnd(a, i.rd), RegOpnd(a, i.rs1), i.imm, n, IsSignedLoad(i.cmd), m);
    SetsRegister(a, s, m, Run(PlainCode(a, i, off), m), i.rd, Extend(LoadBytes(s.mem, va, n), n, IsSignedLoad(i.cmd)), skip);
  }

  lemma RepMemory(a: Allocation, s: GState, m: Machine, skip: int)
    requires Rep(a, s, m, skip)
    ensures m.g.mem == s.mem
  {
  }

  lemma StoreStep(sys: Sys, i: Inst, off: nat, s: GState)
    requires OpcodeOf(i.cmd) == OpStore && OperandsOk(i, s)
    ensures var va, n := s.regs[i.rs1] + Signed(i.imm), AccessSize(i.cmd);
            && 0 <= va && va + n <= |s.mem|
            && Step(sys, i, off, s) == Running(s.(mem := StoreBytes(s.mem, va, n, s.regs[i.rs2])))
  {
  }

  lemma StorePlain(a: Allocation, i: Inst, off: nat)
    requires OpcodeOf(i.cmd) == OpStore
    ensures PlainCode(a, i, off) == StoreType(RegOpnd(a, i.rs1), RegOpnd(a, i.rs2), i.imm, AccessSize(i.cmd))
  {
  }

  lemma StoreCorrect(sys: Sys, a: Allocation, i: Inst, off: nat, s: GState, m: Machine)
    requires Inv(a) && OpcodeOf(i.cmd) == OpStore && OperandsOk(i, s)
    requires Rep(a, s, m, 0) && Fits(m)
    ensures var o := Step(sys, i, off, s);
      o.Running? && Rep(a, o.s, Run(PlainCode(a, i, off), m), 0) && Run(PlainCode(a, i, off), m).base == m.base
  {
    hide *;
    var va, n, v := s.regs[i.rs1] + Signed(i.imm), AccessSize(i.cmd), s.regs[i.rs2];
    RepMemory(a, s, m, 0);
    StoreStep(sys, i, off, s);
    StorePlain(a, i, off);
    IsInBuffer(m, va, n);
    PlacesOk(a, i.rs1);
    PlacesOk(a, i.rs2);
    ReadsTheGuest(a, s, m, 0, i.rs1);
    ReadsTheGuest(a, s, m, 0, i.rs2);
    StoreTypeComputes(RegOpnd(a, i.rs1), RegOpnd(a, i.rs2), i.imm, n, m);
    RepAfterStore(a, s, m, va, n, v);
    TempsAreFree(a, s.(mem := StoreBytes(s.mem, va, n, v)), WithStore(m, va, n, v), Run(PlainCode(a, i, off), m), 0);
    SameBase(m, va, n, v, Run(PlainCode(a, i, off), m));
  }

  lemma SameBase(m: Machine, va: nat, n: nat, v: Word, r: Machine)
    requires IsSize(n) && va + n <= |m.g.mem| && SameButTemps(WithStore(m, va, n, v), r)
    ensures r.base == m.base
  {
  }

  lemma RepAfterStore(a: Allocation, s: GState, m: Machine, i: nat, n: nat, v: Word)
    requires Inv(a) && Rep(a, s, m, 0) && IsSize(n) && i + n <= |s.mem|
    ensures Rep(a, s.(mem := StoreBytes(s.mem, i, n, v)), WithStore(m, i, n, v), 0)
  {
  }

  lemma ArithStep(sys: Sys, a: Allocation, i: Inst, off: nat, s: GState)
    requires IsImmArith(i.cmd) || IsRegArith(i.cmd)
    ensures IsImmArith(i.cmd) ==>
              && Step(sys, i, off, s) == Running(SetReg(s, i.rd, ImmResult(i.cmd, s.regs[i.rs1], i.imm)))
              && PlainCode(a, i, off) == ImmArithCode(i.cmd, RegOpnd(a, i.rd), RegOpnd(a, i.rs1), i.imm)
    ensures IsRegArith(i.cmd) ==>
              && Step(sys, i, off, s) == Running(SetReg(s, i.rd, RegResult(i.cmd, s.regs[i.rs1], s.regs[i.rs2])))
              && PlainCode(a, i, off) == RegArithCode(i.cmd, RegOpnd(a, i.rd), RegOpnd(a, i.rs1), RegOpnd(a, i.rs2))
  {
  }

  lemma ArithMay(i: Inst, skip: int)
    requires MaySkip(i, skip) && (IsImmArith(i.cmd) || IsRegArith(i.cmd))
    ensures (skip == 0 || skip == i.rd) && (i.rs1 == 0 || i.rs1 != skip) && (IsRegArith(i.cmd) ==> i.rs2 == 0 || i.rs2 != skip)
  {
  }

  lemma ImmCorrect(sys: Sys, a: Allocation, i: Inst, off: nat, s: GState, m: Machine, skip: int)
    requires Inv(a) && IsImmArith(i.cmd) && TemplateOk(a, i) && Rep(a, s, m, skip) && MaySkip(i, skip)
    ensures var o := Step(sys, i, off, s);
      o.Running? && Rep(a, o.s, Run(PlainCode(a, i, off), m), 0) && Run(PlainCode(a, i, off), m).base == m.base
  {
    hide *;
    ArithStep(sys, a, i, off, s);
    ArithMay(i, skip);
    PlacesOk(a, i.rd);
    PlacesOk(a, i.rs1);
    ReadsTheGuest(a, s, m, skip, i.rs1);
    ImmGuard(a, i);
    ImmArithComputes(i.cmd, RegOpnd(a, i.rd), RegOpnd(a, i.rs1), i.imm, m);
    SetsRegister(a, s, m, Run(PlainCode(a, i, off), m), i.rd, ImmResult(i.cmd, s.regs[i.rs1], i.imm), skip);
  }

  lemma ImmGuard(a: Allocation, i: Inst)
    requires Inv(a) && TemplateOk(a, i) && IsImmArith(i.cmd)
    ensures i.cmd in {SLTI, SLTIU} ==> RegOpnd(a, i.rd).IsImm() || !RegOpnd(a, i.rs1).IsImm()
  {
  }

  lemma RegGuard(a: Allocation, i: Inst, s: GState)
    requires Inv(a) && TemplateOk(a, i) && OperandsOk(i, s) && IsRegArith(i.cmd) && i.IsTranslationSupported()
    ensures RegArithOk(i.cmd, RegOpnd(a, i.rd), RegOpnd(a, i.rs1), RegOpnd(a, i.rs2))
    ensures i.cmd == MULH && !RegOpnd(a, i.rd).IsImm() ==> MulhCorrection(s.regs[i.rs1], s.regs[i.rs2]) == 0
  {
  }

  lemma RegCorrect(sys: Sys, a: Allocation, i: Inst, off: nat, s: GState, m: Machine, skip: int)
    requires Inv(a) && IsRegArith(i.cmd) && i.IsTranslationSupported()
    requires TemplateOk(a, i) && OperandsOk(i, s) && Rep(a, s, m, skip) && MaySkip(i, skip)
    ensures var o := Step(sys, i, off, s);
      o.Running? && Rep(a, o.s, Run(PlainCode(a, i, off), m), 0) && Run(PlainCode(a, i, off), m).base == m.base
  {
    hide *;
    ArithStep(sys, a, i, off, s);
    ArithMay(i, skip);
    PlacesOk(a, i.rd);
    PlacesOk(a, i.rs1);
    PlacesOk(a, i.rs2);
    ReadsTheGuest(a, s, m, skip, i.rs1);
    ReadsTheGuest(a, s, m, skip, i.rs2);
    RegGuard(a, i, s);
    RegArithComputes(i.cmd, RegOpnd(a, i.rd), RegOpnd(a, i.rs1), RegOpnd(a, i.rs2), m);
    SetsRegister(a, s, m, Run(PlainCode(a, i, off), m), i.rd, RegResult(i.cmd, s.regs[i.rs1], s.regs[i.rs2]), skip);
  }

  lemma ArithCorrect(sys: Sys, a: Allocation, i: Inst, off: nat, s: GState, m: Machine, skip: int)
    requires Inv(a) && (IsImmArith(i.cmd) || IsRegArith(i.cmd)) && i.IsTranslationSupported()
    requires TemplateOk(a, i) && OperandsOk(i, s)
    requires Rep(a, s, m, skip) && MaySkip(i, skip)
    ensures var o := Step(sys, i, off, s);
      o.Running? && Rep(a, o.s, Run(PlainCode(a, i, off), m), 0) && Run(PlainCode(a, i, off), m).base == m.base
  {
    hide *;
    if IsImmArith(i.cmd) {
      ImmCorrect(sys, a, i, off, s, m, skip);
    } else {
      RegCorrect(sys, a, i, off, s, m, skip);
    }
  }

  lemma UpperStep(sys: Sys, i: Inst, off: nat, s: GState)
    requires i.cmd in {LUI, AUIPC}
    ensures Step(sys, i, off, s)
         == Running(SetReg(s, i.rd, if i.cmd == LUI then i.imm else Add(s.pc, Wrap(off + i.imm))))
  {
    hide SetReg, Add, Wrap, Signed, And, LoadBytes, StoreBytes, Extend, AccessSize, ImmResult, RegResult, BranchTaken, SysCall;
    PcSum(s.pc, off, i.imm);
    AddIsWrap(Add(s.pc, Wrap(off)), i.imm);
  }

  lemma UpperPlain(a: Allocation, i: Inst, off: nat)
    requires i.cmd in {LUI, AUIPC}
    ensures PlainCode(a, i, off)
         == if i.cmd == LUI then Move(RegOpnd(a, i.rd), Imm(i.imm)) else AuipcCode(RegOpnd(a, i.rd), off, i.imm)
  {
  }

  lemma UpperCorrect(sys: Sys, a: Allocation, i: Inst, off: nat, s: GState, m: Machine, skip: int)
    requires Inv(a) && i.cmd in {LUI, AUIPC} && Rep(a, s, m, skip) && MaySkip(i, skip)
    ensures var o := Step(sys, i, off, s);
      o.Running? && Rep(a, o.s, Run(PlainCode(a, i, off), m), 0) && Run(PlainCode(a, i, off), m).base == m.base
  {
    hide *;
    PlacesOk(a, i.rd);
    UpperStep(sys, i, off, s);
    UpperPlain(a, i, off);
    SamePc(a, s, m, skip);
    DestinationOnly(i, skip);
    if i.cmd == LUI {
      LuiComputes(RegOpnd(a, i.rd), i.imm, m);
      SetsRegister(a, s, m, Run(PlainCode(a, i, off), m), i.rd, i.imm, skip);
    } else {
      AuipcComputes(RegOpnd(a, i.rd), off, i.imm, m);
      SetsRegister(a, s, m, Run(PlainCode(a, i, off), m), i.rd, Add(s.pc, Wrap(off + i.imm)), skip);
    }
  }

  lemma DestinationOnly(i: Inst, skip: int)
    requires MaySkip(i, skip)
    ensures skip == 0 || skip == i.rd
  {
  }

  lemma SamePc(a: Allocation, s: GState, m: Machine, skip: int)
    requires Rep(a, s, m, skip)
    ensures m.g.pc == s.pc
  {
  }

  lemma LuiComputes(d: Operand, imm: Word, m: Machine)
    ensures SameButTemps(Write(d, imm, m), Run(Move(d, Imm(imm)), m))
  {
    RunMove(d, Imm(imm), m);
  }

  /** State after a jump at offset off: link register written, pc at the target. */
  function AfterJump(i: Inst, off: nat, s: GState): GState {
    var t := SetReg(s, i.rd, Add(s.pc, Wrap(off + 4)));
    t.(pc := if i.cmd == JAL then Add(s.pc, Wrap(off + 2 * Signed(i.imm)))
             else And(Add(t.regs[i.rs1], i.imm), 0xFFFF_FFFE))
  }

  lemma JumpStep(sys: Sys, i: Inst, off: nat, s: GState)
    requires i.cmd in {JAL, JALR}
    ensures Step(sys, i, off, s) == Running(AfterJump(i, off, s))
  {
    hide LoadBytes, Extend, SetReg, AccessSize, Add, Wrap, Signed, ImmResult, RegResult, BranchTaken, StoreBytes, SysCall, And;
    PcSum(s.pc, off, 4);
    PcSum(s.pc, off, 2 * Signed(i.imm));
    AddIsWrap(Add(s.pc, Wrap(off)), 4);
  }

  /** Both jumps: once the link register is written, moving pc completes the instruction. */
  lemma JumpCompletes(a: Allocation, s: GState, m: Machine, n: Machine, rd: Reg, v: Word, target: Word, skip: int)
    requires Inv(a) && Rep(a, s, m, skip) && (skip == 0 || skip == rd)
    requires SameButTemps(Write(PcField, target, Write(RegOpnd(a, rd), v, m)), n)
    ensures Rep(a, SetReg(s, rd, v).(pc := target), n, 0) && n.base == m.base
    ensures Rep(a, SetReg(s, rd, v), Write(RegOpnd(a, rd), v, m), 0)
  {
    hide SetReg, Write, SameButTemps, RegOpnd, Rep;
    var link := Write(RegOpnd(a, rd), v, m);
    SameRefl(link);
    SetsRegister(a, s, m, link, rd, v, skip);
    SetsPc(a, SetReg(s, rd, v), link, n, target);
  }

  lemma JalCorrect(a: Allocation, i: Inst, off: nat, s: GState, m: Machine, skip: int)
    requires Inv(a) && i.cmd == JAL && Rep(a, s, m, skip) && (skip == 0 || skip == i.rd)
    ensures var n := Run(JalCode(RegOpnd(a, i.rd), off, i.imm), m);
      Rep(a, AfterJump(i, off, s), n, 0) && n.base == m.base
  {
    hide *;
    var d := RegOpnd(a, i.rd);
    PlacesOk(a, i.rd);
    SamePc(a, s, m, skip);
    JalComputes(d, off, i.imm, m);
    JumpCompletes(a, s, m, Run(JalCode(d, off, i.imm), m), i.rd, Add(s.pc, Wrap(off + 4)),
                  Add(s.pc, Wrap(off + 2 * Signed(i.imm))), skip);
    AfterJal(i, off, s);
  }

  lemma AfterJal(i: Inst, off: nat, s: GState)
    requires i.cmd == JAL
    ensures AfterJump(i, off, s) == SetReg(s, i.rd, Add(s.pc, Wrap(off + 4))).(pc := Add(s.pc, Wrap(off + 2 * Signed(i.imm))))
  {
    hide SetReg, Add, Wrap, Signed, And;
  }

  lemma JalrCorrect(a: Allocation, i: Inst, off: nat, s: GState, m: Machine, skip: int)
    requires Inv(a) && i.cmd == JALR && Rep(a, s, m, skip) && (skip == 0 || skip == i.rd)
    ensures var n := Run(JalrCode(RegOpnd(a, i.rd), RegOpnd(a, i.rs1), off, i.imm), m);
      Rep(a, AfterJump(i, off, s), n, 0) && n.base == m.base
  {
    hide Run, JalrCode, Wrap, SameButTemps, Rep, Write, RegOpnd, And, Add, SetReg;
    var d, s1, v := RegOpnd(a, i.rd), RegOpnd(a, i.rs1), Add(s.pc, Wrap(off + 4));
    var n, link := Run(JalrCode(d, s1, off, i.imm), m), Write(d, v, m);
    PlacesOk(a, i.rd);
    PlacesOk(a, i.rs1);
    SamePc(a, s, m, skip);
    JalrComputes(d, s1, off, i.imm, m);
    JumpCompletes(a, s, m, n, i.rd, v, And(Add(Read(s1, link), i.imm), 0xFFFF_FFFE), skip);
    ReadsTheGuest(a, SetReg(s, i.rd, v), link, 0, i.rs1);
  }

  lemma JumpPlain(a: Allocation, i: Inst, off: nat)
    requires i.cmd in {JAL, JALR}
    ensures PlainCode(a, i, off)
         == if i.cmd == JAL then JalCode(RegOpnd(a, i.rd), off, i.imm)
            else JalrCode(RegOpnd(a, i.rd), RegOpnd(a, i.rs1), off, i.imm)
  {
    hide JalCode, JalrCode, RegOpnd;
  }

  lemma JumpCorrect(sys: Sys, a: Allocation, i: Inst, off: nat, s: GState, m: Machine, skip: int)
    requires Inv(a) && i.cmd in {JAL, JALR} && Rep(a, s, m, skip) && MaySkip(i, skip)
    ensures var o := Step(sys, i, off, s);
      o.Running? && Rep(a, o.s, Run(PlainCode(a, i, off), m), 0) && Run(PlainCode(a, i, off), m).base == m.base
  {
    hide *;
    JumpStep(sys, i, off, s);
    JumpPlain(a, i, off);
    DestinationOnly(i, skip);
    if i.cmd == JAL {
      JalCorrect(a, i, off, s, m, skip);
    } else {
      JalrCorrect(a, i, off, s, m, skip);
    }
  }

  /** Semantic preservation for one instruction: under the side conditions, for every allocation,
      placement and aliasing, native code does to the represented state what the interpreter does. */
  lemma PlainCorrect(sys: Sys, a: Allocation, i: Inst, off: nat, s: GState, m: Machine, skip: int)
    requires Inv(a) && i.IsTranslationSupported() && OpcodeOf(i.cmd) != OpBranch
    requires TemplateOk(a, i) && OperandsOk(i, s)
    requires Rep(a, s, m, skip) && MaySkip(i, skip) && Fits(m)
    ensures var o := Step(sys, i, off, s);
      o.Running? && Rep(a, o.s, Run(PlainCode(a, i, off), m), 0) && Run(PlainCode(a, i, off), m).base == m.base
  {
    hide Run, Step, Rep, PlainCode, TemplateOk, OperandsOk, MaySkip, Inv, Fits;
    match OpcodeOf(i.cmd)
    case OpLui | OpAuipc => UpperCorrect(sys, a, i, off, s, m, skip);
    case OpJal | OpJalr => JumpCorrect(sys, a, i, off, s, m, skip);
    case OpLoad => LoadCorrect(sys, a, i, off, s, m, skip);
    case OpStore => NoDestination(i, skip); StoreCorrect(sys, a, i, off, s, m);
    case OpImm | OpReg => ArithCorrect(sys, a, i, off, s, m, skip);
  }

  lemma NoDestination(i: Inst, skip: int)
    requires MaySkip(i, skip) && OpcodeOf(i.cmd) == OpStore
    ensures skip == 0
  {
  }
}
