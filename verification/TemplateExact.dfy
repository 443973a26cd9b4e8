/** The side conditions are not too strong. The one on an instruction's operand values is exact in every
    state whose memory 32-bit addresses reach; where the one on operand places fails, so does the template, on
    some machine. */
module TemplateExact {
  import opened Words
  import opened Isa
  import opened Guest
  import opened Host
  import opened Alloc
  import opened Rv32m
  import opened Templates
  import opened TemplateLaws
  import opened TemplateCorrect

  /** The template ends in a machine that represents the interpreter's next state. */
  ghost predicate InstRight(sys: Sys, a: Allocation, i: Inst, off: nat, s: GState, m: Machine)
  {
    var o := Step(sys, i, off, s);
    o.Running? && Rep(a, o.s, Run(PlainCode(a, i, off), m), 0)
  }

  /** A machine that represents s, with a guest memory that 32-bit addresses reach. */
  ghost predicate Starts(a: Allocation, s: GState, m: Machine) {
    Rep(a, s, m, 0) && Fits(m) && |s.mem| <= WORD
  }

  /** The template is right in exactly the states whose operands are acceptable. */
  ghost predicate TemplateRight(sys: Sys, a: Allocation, i: Inst, off: nat)
  {
    forall s, m :: Starts(a, s, m) ==> (InstRight(sys, a, i, off, s, m) <==> OperandsOk(i, s))
  }

  // ----- machines made to order -----

  /** x and y in two chosen registers, zero elsewhere. */
  function TwoRegs(r: Reg, x: Word, t: Reg, y: Word): GState
    requires (r == 0 ==> x == 0) && (t == 0 ==> y == 0)
  {
    StateRep(seq(32, i => if i == r then x else if i == t then y else 0), 0, [], 0)
  }

  ghost function HostValue(a: Allocation, s: GState, h: int): Word
  {
    if exists r :: Mapped(a, r) && a.place[r].h == h
    then var r :| Mapped(a, r) && a.place[r].h == h; s.regs[r]
    else 0
  }

  const CLEAR := Known(false, false, false, false)

  /** A machine for guest state s with a chosen leftover in edx and in the flags. */
  ghost function MachineFor(a: Allocation, s: GState, edx: Word, flags: Flags): Machine
  {
    MachineRep(seq(8, h => if h == EDX then edx else HostValue(a, s, h)), 0, flags, s, 0, true)
  }

  lemma MachineForStarts(a: Allocation, s: GState, edx: Word, flags: Flags)
    requires Inv(a) && |s.mem| <= WORD
    ensures Starts(a, s, MachineFor(a, s, edx, flags)) && Rep(a, s, MachineFor(a, s, edx, flags), 0)
    ensures MachineFor(a, s, edx, flags).flags == flags && MachineFor(a, s, edx, flags).r[EDX] == edx
  {
  }

  /** Code that leaves v in rd is wrong when the interpreter computes another value. */
  lemma WrongValue(a: Allocation, s: GState, m: Machine, n: Machine, rd: Reg, v: Word, w: Word)
    requires Inv(a) && rd != 0 && v != w && SameButTemps(Write(RegOpnd(a, rd), v, m), n)
    ensures !Rep(a, SetReg(s, rd, w), n, 0)
  {
  }

  /** An arithmetic instruction is wrong on a machine where its template leaves another value. */
  lemma ValueDiffers(sys: Sys, a: Allocation, i: Inst, off: nat, s: GState, m: Machine, v: Word, w: Word)
    requires Inv(a) && (IsImmArith(i.cmd) || IsRegArith(i.cmd)) && i.rd != 0
    requires w == if IsImmArith(i.cmd) then ImmResult(i.cmd, s.regs[i.rs1], i.imm)
                  else RegResult(i.cmd, s.regs[i.rs1], s.regs[i.rs2])
    requires v != w && SameButTemps(Write(RegOpnd(a, i.rd), v, m), Run(PlainCode(a, i, off), m))
    ensures !InstRight(sys, a, i, off, s, m)
  {
    hide *;
    ArithStep(sys, a, i, off, s);
    WrongValue(a, s, m, Run(PlainCode(a, i, off), m), i.rd, v, w);
    NotRight(sys, a, i, off, s, m);
  }

  lemma NotRight(sys: Sys, a: Allocation, i: Inst, off: nat, s: GState, m: Machine)
    requires Step(sys, i, off, s).Stopped? || !Rep(a, Step(sys, i, off, s).s, Run(PlainCode(a, i, off), m), 0)
    ensures !InstRight(sys, a, i, off, s, m)
  {
    hide Step, Rep, Run, PlainCode;
  }

  /** A machine whose code leaves a wrong value refutes the template. */
  lemma Refutes(sys: Sys, a: Allocation, i: Inst, off: nat, s: GState, m: Machine, v: Word, w: Word)
    requires Inv(a) && (IsImmArith(i.cmd) || IsRegArith(i.cmd)) && i.rd != 0
    requires Starts(a, s, m) && OperandsOk(i, s)
    requires w == if IsImmArith(i.cmd) then ImmResult(i.cmd, s.regs[i.rs1], i.imm)
                  else RegResult(i.cmd, s.regs[i.rs1], s.regs[i.rs2])
    requires v != w && SameButTemps(Write(RegOpnd(a, i.rd), v, m), Run(PlainCode(a, i, off), m))
    ensures !TemplateRight(sys, a, i, off)
  {
    hide ImmResult, RegResult, PlainCode, Run, SameButTemps, Write, Starts, InstRight, Inv;
    ValueDiffers(sys, a, i, off, s, m, v, w);
  }

  // ----- the failing families -----

  lemma AddDroppedAfterCopy(d: Operand, s2: Operand, m: Machine)
    requires IsPlace(d) && IsPlace(s2) && DropsRegType(d, Imm(0), s2)
    ensures SameButTemps(Write(d, 0, m), Run(CopyType(d, s2) + RegType(d, Imm(0), s2, AddB), m))
  {
    hide Run, SameButTemps, RegType, CopyType, Read, Write;
    var copy, rest, m1 := CopyType(d, s2), RegType(d, Imm(0), s2, AddB), Run(CopyType(d, s2), m);
    ReadZero(Imm(0), m, m1);
    CopyComputes(d, s2, m);
    RunAppend(copy, rest, m);
    RegTypeComputes(d, Imm(0), s2, AddB, m1);
    AddAgain(d, Read(s2, m), 0, m, m1, Run(rest, m1));
  }

  lemma AddDropped(d: Operand, s1: Operand, s2: Operand, m: Machine)
    requires IsPlace(d) && IsPlace(s1) && IsPlace(s2) && DropsRegType(d, s1, s2)
    ensures SameButTemps(Write(d, Read(s1, m), m), Run(RegArithCode(ADD, d, s1, s2), m))
  {
    hide Run, SameButTemps, RegType, CopyType, Write;
    if s1.IsImm() {
      AddDroppedAfterCopy(d, s2, m);
      ReadZero(s1, m, m);
    } else {
      var rest := RegType(d, s1, s2, AddB);
      assert RegArithCode(ADD, d, s1, s2) == [] + rest == rest;
      RegTypeComputes(d, s1, s2, AddB, m);
    }
  }

  lemma ArithOfSmall()
    ensures Add(0, 1) == 1 && Sub(0, 1) == 0xFFFF_FFFF && Xor(0, 1) == 1 && Or(0, 1) == 1 && And(1, 0) == 0
  {
  }

  lemma PlainArith(a: Allocation, i: Inst, off: nat)
    requires (IsImmArith(i.cmd) || IsRegArith(i.cmd))
    ensures PlainCode(a, i, off)
         == if IsImmArith(i.cmd) then ImmArithCode(i.cmd, RegOpnd(a, i.rd), RegOpnd(a, i.rs1), i.imm)
            else RegArithCode(i.cmd, RegOpnd(a, i.rd), RegOpnd(a, i.rs1), RegOpnd(a, i.rs2))
  {
  }

  lemma DroppedLeaves(c: Cmd, d: Operand, s1: Operand, s2: Operand, m: Machine)
    requires IsRegArith(c) && c in {ADD, SUB, XOR, OR, AND} && IsPlace(d) && IsPlace(s1) && IsPlace(s2) && DropsRegType(d, s1, s2)
    ensures SameButTemps(Write(d, Read(s1, m), m), Run(RegArithCode(c, d, s1, s2), m))
  {
    if c == ADD {
      AddDropped(d, s1, s2, m);
    } else {
      assert RegArithCode(c, d, s1, s2) == RegType(d, s1, s2, RegOp(c)) by { hide RegType; }
      hide SameButTemps, Run, Write, Read, RegType, RegArithCode;
      RegTypeComputes(d, s1, s2, RegOp(c), m);
    }
  }

  lemma DroppedValues(c: Cmd)
    requires c in {ADD, SUB, XOR, OR, AND}
    ensures if c == AND then RegResult(c, 1, 0) != 1 else RegResult(c, 0, 1) != 0
  {
    ArithOfSmall();
    hide Add, Sub, Xor, Or, And;
  }

  /** Two operand values for which the dropped operation shows. */
  lemma DroppedState(a: Allocation, i: Inst) returns (s: GState, x: Word, w: Word)
    requires Inv(a) && i.cmd in {ADD, SUB, XOR, OR, AND} && !TemplateOk(a, i)
    ensures i.rd != 0 && DropsRegType(RegOpnd(a, i.rd), RegOpnd(a, i.rs1), RegOpnd(a, i.rs2))
    ensures IsRegArith(i.cmd) && !IsImmArith(i.cmd) && |s.mem| <= WORD && OperandsOk(i, s)
    ensures x == s.regs[i.rs1] && w == RegResult(i.cmd, s.regs[i.rs1], s.regs[i.rs2]) != x
  {
    hide Add, Sub, Xor, Or, And, RegResult;
    PlacesOk(a, i.rd);
    var y := if i.cmd == AND then 0 else 1;
    x := 1 - y;
    s := TwoRegs(i.rs1, x, i.rs2, y);
    assert s.regs[i.rs1] == x && s.regs[i.rs2] == y;
    DroppedValues(i.cmd);
    w := RegResult(i.cmd, x, y);
  }

  lemma DroppedFails(sys: Sys, a: Allocation, i: Inst, off: nat)
    requires Inv(a) && i.cmd in {ADD, SUB, XOR, OR, AND} && !TemplateOk(a, i)
    ensures !TemplateRight(sys, a, i, off)
  {
    hide *;
    var s, x, w := DroppedState(a, i);
    var m := MachineFor(a, s, 0, CLEAR);
    PlacesOk(a, i.rd);
    PlacesOk(a, i.rs1);
    PlacesOk(a, i.rs2);
    MachineForStarts(a, s, 0, CLEAR);
    ReadsTheGuest(a, s, m, 0, i.rs1);
    DroppedLeaves(i.cmd, RegOpnd(a, i.rd), RegOpnd(a, i.rs1), RegOpnd(a, i.rs2), m);
    PlainArith(a, i, off);
    Refutes(sys, a, i, off, s, m, x, w);
  }

  lemma SetImmWithoutSource(i: Inst, d: Operand, m: Machine)
    requires i.cmd in {SLTI, SLTIU} && IsPlace(d) && m.flags.Known?
    ensures var c := if i.cmd == SLTI then CondL else CondB;
            SameButTemps(Write(d, Bool(Holds(c, m.flags)), m), Run(ImmArithCode(i.cmd, d, Imm(0), i.imm), m))
  {
    var t := if i.cmd == SLTI then Imm(Signed(i.imm)) else Imm(i.imm);
    var c := if i.cmd == SLTI then CondL else CondB;
    assert Emit(Cmp(Imm(0), t)) + SetFlag(d, c) == SetFlag(d, c);
    hide Run, SetFlag, Emit, SameButTemps, Write, Holds;
    SetFlagComputes(d, c, m);
  }

  /** The lost compare: setl or setb reads what an earlier instruction left in the flags. */
  lemma SetImmFails(sys: Sys, a: Allocation, i: Inst, off: nat)
    requires Inv(a) && i.cmd in {SLTI, SLTIU} && i.rd != 0 && i.rs1 == 0
    ensures !TemplateRight(sys, a, i, off)
  {
    hide *;
    var s, w, flags := SetImmState(a, i);
    var m := MachineFor(a, s, 0, flags);
    PlacesOk(a, i.rd);
    MachineForStarts(a, s, 0, flags);
    PlainArith(a, i, off);
    SetImmWithoutSource(i, RegOpnd(a, i.rd), m);
    Refutes(sys, a, i, off, s, m, 1 - w, w);
  }

  /** A state, the right result, and flags that say the opposite. */
  lemma SetImmState(a: Allocation, i: Inst) returns (s: GState, w: Word, flags: Flags)
    requires Inv(a) && i.cmd in {SLTI, SLTIU} && i.rs1 == 0
    ensures IsImmArith(i.cmd) && w == ImmResult(i.cmd, s.regs[i.rs1], i.imm) <= 1
    ensures |s.mem| <= WORD && OperandsOk(i, s) && RegOpnd(a, i.rs1) == Imm(0)
    ensures flags.Known? && Bool(Holds(if i.cmd == SLTI then CondL else CondB, flags)) == 1 - w
  {
    s := TwoRegs(0, 0, 0, 0);
    w := ImmResult(i.cmd, 0, i.imm);
    flags := Known(false, w == 0, w == 0, false);
  }

  /** The lost multiply: the product with zero comes out as 1. */
  lemma MulWithoutSource(c: Cmd, d: Operand, s1: Operand, m: Machine)
    requires IsRegArith(c) && c in {MUL, MULH} && IsPlace(d) && IsPlace(s1)
    requires if c == MUL then Read(s1, m) == 1 else m.r[EDX] == 1
    ensures SameButTemps(Write(d, 1, m), Run(RegArithCode(c, d, s1, Imm(0)), m))
  {
    var half := if c == MUL then EAX else EDX;
    assert RegArithCode(c, d, s1, Imm(0)) == MulType(d, s1, Imm(0), half) by { hide MulType; }
    assert MulValue(s1, Imm(0), half, m) == 1;
    hide RegArithCode, SameButTemps, Run, Write, MulType, MulValue;
    MulTypeComputes(d, s1, Imm(0), half, m);
  }

  lemma MulFails(sys: Sys, a: Allocation, i: Inst, off: nat)
    requires Inv(a) && i.cmd in {MUL, MULH} && !TemplateOk(a, i)
    ensures !TemplateRight(sys, a, i, off)
  {
    PlacesOk(a, i.rd);
    PlacesOk(a, i.rs1);
    var s := if i.cmd == MUL then TwoRegs(i.rs1, 1, 0, 0) else TwoRegs(0, 0, 0, 0);
    var m := MachineFor(a, s, 1, CLEAR);
    assert IsRegArith(i.cmd) && RegResult(i.cmd, s.regs[i.rs1], 0) == 0 && s.regs[0] == 0 && s.mem == [];
    assert OperandsOk(i, s) && RegOpnd(a, i.rs2) == Imm(0) && i.rd != 0 && i.rs2 == 0;
    assert i.cmd == MUL ==> s.regs[i.rs1] == 1;
    hide *;
    MachineForStarts(a, s, 1, CLEAR);
    ReadsTheGuest(a, s, m, 0, i.rs1);
    MulWithoutSource(i.cmd, RegOpnd(a, i.rd), RegOpnd(a, i.rs1), m);
    PlainArith(a, i, off);
    Refutes(sys, a, i, off, s, m, 1, 0);
  }

  lemma ShiftOneByOne(op: BinOp)
    requires op.IsShift()
    ensures BinFn(op, 1, 1) != 1 && BinFn(op, 1, 0) == 1
  {
    assert Pow2(1) == 2 && Pow2(0) == 1 && 1 % 32 == 1 && 0 % 32 == 0 && Signed(1) == 1;
    match op
    case ShlB => assert Shl(1, 1) == 2 && Shl(1, 0) == 1;
    case ShrB => assert Shr(1, 1) == 0 && Shr(1, 0) == 1;
    case SarB => assert Sar(1, 1) == 0 && Sar(1, 0) == 1;
  }

  lemma ShiftLeaves(c: Cmd, d: Operand, s1: Operand, s2: Operand, m: Machine)
    requires IsRegArith(c) && c in {SLL, SRL, SRA} && IsPlace(d) && IsPlace(s1) && IsPlace(s2)
    ensures SameButTemps(Write(d, ShiftValue(d, s1, s2, RegOp(c), m), m), Run(RegArithCode(c, d, s1, s2), m))
  {
    assert RegArithCode(c, d, s1, s2) == ShiftType(d, s1, s2, RegOp(c)) by { hide ShiftType; }
    hide RegArithCode, SameButTemps, Run, Write, ShiftType, ShiftValue;
    ShiftTypeComputes(d, s1, s2, RegOp(c), m);
  }

  /** With 1 in rs1, and 1 or 0 in rs2, the lost amount or the lost result shows. */
  lemma ShiftFails(sys: Sys, a: Allocation, i: Inst, off: nat)
    requires Inv(a) && i.cmd in {SLL, SRL, SRA} && !TemplateOk(a, i)
    ensures !TemplateRight(sys, a, i, off)
  {
    var d, s1, s2, op := RegOpnd(a, i.rd), RegOpnd(a, i.rs1), RegOpnd(a, i.rs2), RegOp(i.cmd);
    PlacesOk(a, i.rd);
    PlacesOk(a, i.rs1);
    PlacesOk(a, i.rs2);
    PlacesDiffer(a, i.rd, i.rs2);
    var y := if d == R(ECX) || i.rs2 == i.rs1 then 1 else 0;
    var s := TwoRegs(i.rs1, 1, i.rs2, y);
    var m := MachineFor(a, s, 0, CLEAR);
    assert s.regs[i.rs1] == 1 && s.regs[i.rs2] == y && s.mem == [] && OperandsOk(i, s) && IsRegArith(i.cmd);
    assert i.rd != 0 && !s2.IsImm() && (d == R(ECX) || (s2 == d && y == 0));
    var v, w := ShiftValue(d, s1, s2, op, m), RegResult(i.cmd, 1, y);
    assert v == if d == R(ECX) then Read(s1, m) else BinFn(op, Read(s1, m), Read(s1, m));
    hide *;
    MachineForStarts(a, s, 0, CLEAR);
    ReadsTheGuest(a, s, m, 0, i.rs1);
    RegOpMeans(i.cmd, 1, y);
    ShiftOneByOne(op);
    ShiftLeaves(i.cmd, d, s1, s2, m);
    PlainArith(a, i, off);
    Refutes(sys, a, i, off, s, m, v, w);
  }

  // ----- operand values -----

  /** An address that leaves 32 bits makes native code miss the buffer; one that does not is out of range,
      and then the interpreter throws. */
  lemma LoadFails(sys: Sys, a: Allocation, i: Inst, off: nat, s: GState, m: Machine)
    requires Inv(a) && OpcodeOf(i.cmd) == OpLoad && Starts(a, s, m) && !OperandsOk(i, s)
    ensures !InstRight(sys, a, i, off, s, m)
  {
    hide *;
    StartsFacts(a, s, m);
    AccessFails(sys, i, off, s);
    PlacesOk(a, i.rd);
    PlacesOk(a, i.rs1);
    ReadsTheGuest(a, s, m, 0, i.rs1);
    LoadPlain(a, i, off);
    if !(0 <= s.regs[i.rs1] + Signed(i.imm) < WORD) {
      LoadTypeFails(RegOpnd(a, i.rd), RegOpnd(a, i.rs1), i.imm, AccessSize(i.cmd), IsSignedLoad(i.cmd), m);
      NotOk(a, Step(sys, i, off, s).s, Run(PlainCode(a, i, off), m));
    }
    NotRight(sys, a, i, off, s, m);
  }

  lemma StoreFails(sys: Sys, a: Allocation, i: Inst, off: nat, s: GState, m: Machine)
    requires Inv(a) && OpcodeOf(i.cmd) == OpStore && Starts(a, s, m) && !OperandsOk(i, s)
    ensures !InstRight(sys, a, i, off, s, m)
  {
    hide *;
    StartsFacts(a, s, m);
    AccessFails(sys, i, off, s);
    PlacesOk(a, i.rs1);
    PlacesOk(a, i.rs2);
    ReadsTheGuest(a, s, m, 0, i.rs1);
    StorePlain(a, i, off);
    if !(0 <= s.regs[i.rs1] + Signed(i.imm) < WORD) {
      StoreTypeFails(RegOpnd(a, i.rs1), RegOpnd(a, i.rs2), i.imm, AccessSize(i.cmd), m);
      NotOk(a, Step(sys, i, off, s).s, Run(PlainCode(a, i, off), m));
    }
    NotRight(sys, a, i, off, s, m);
  }

  lemma StartsFacts(a: Allocation, s: GState, m: Machine)
    requires Starts(a, s, m)
    ensures Rep(a, s, m, 0) && m.g.mem == s.mem && Fits(m) && m.base + |m.g.mem| <= TWO64 && |s.mem| <= WORD
  {
  }

  lemma NotOk(a: Allocation, s: GState, m: Machine)
    requires !m.ok
    ensures !Rep(a, s, m, 0)
  {
  }

  lemma AccessFails(sys: Sys, i: Inst, off: nat, s: GState)
    requires OpcodeOf(i.cmd) in {OpLoad, OpStore} && !OperandsOk(i, s)
    ensures 0 <= s.regs[i.rs1] + Signed(i.imm) < WORD ==> Step(sys, i, off, s).Stopped?
  {
    hide LoadBytes, StoreBytes, Extend, SetReg;
  }

  /** The unsigned multiply leaves another high word. */
  lemma MulhFails(sys: Sys, a: Allocation, i: Inst, off: nat, s: GState, m: Machine)
    requires Inv(a) && i.cmd == MULH && TemplateOk(a, i) && Starts(a, s, m) && !OperandsOk(i, s)
    ensures !InstRight(sys, a, i, off, s, m)
  {
    hide *;
    StartsFacts(a, s, m);
    var v, w := MulhOperands(a, i, s);
    PlacesOk(a, i.rd);
    PlacesOk(a, i.rs1);
    PlacesOk(a, i.rs2);
    ReadsTheGuest(a, s, m, 0, i.rs1);
    ReadsTheGuest(a, s, m, 0, i.rs2);
    PlainArith(a, i, off);
    MulhLeaves(RegOpnd(a, i.rd), RegOpnd(a, i.rs1), RegOpnd(a, i.rs2), m);
    ValueDiffers(sys, a, i, off, s, m, v, w);
  }

  lemma MulhOperands(a: Allocation, i: Inst, s: GState) returns (v: Word, w: Word)
    requires i.cmd == MULH && TemplateOk(a, i) && !OperandsOk(i, s)
    ensures i.rd != 0 && i.rs2 != 0 && IsRegArith(i.cmd) && !IsImmArith(i.cmd)
    ensures var x: int, y: int := s.regs[i.rs1], s.regs[i.rs2]; v == UpperHalf(x * y)
    ensures w == RegResult(i.cmd, s.regs[i.rs1], s.regs[i.rs2]) && v != w
  {
    hide UpperHalf;
    UnsignedVersusSignedHigh(s.regs[i.rs1], s.regs[i.rs2]);
    var x: int, y: int := s.regs[i.rs1], s.regs[i.rs2];
    v := UpperHalf(x * y);
    w := RegResult(i.cmd, s.regs[i.rs1], s.regs[i.rs2]);
  }

  lemma MulhLeaves(d: Operand, s1: Operand, s2: Operand, m: Machine)
    requires IsPlace(d) && IsPlace(s1) && IsPlace(s2) && !s2.IsImm()
    ensures SameButTemps(Write(d, UpperHalf(Read(s1, m) * Read(s2, m)), m), Run(RegArithCode(MULH, d, s1, s2), m))
  {
    hide Run, MulType, SameButTemps, Read, Write;
    MulTypeComputes(d, s1, s2, EDX, m);
  }

  lemma OtherOperands(a: Allocation, i: Inst, s: GState)
    requires OpcodeOf(i.cmd) !in {OpLoad, OpStore} && i.cmd != MULH
    ensures OperandsOk(i, s)
  {
  }

  /** For a supported instruction other than a conditional branch whose operand places are fine, in every
      state with at most 2^32 bytes of memory native code does what the interpreter does if and only if the
      operand values are acceptable. */
  lemma OperandsRightExactly(sys: Sys, a: Allocation, i: Inst, off: nat, s: GState, m: Machine)
    requires Inv(a) && i.IsTranslationSupported() && OpcodeOf(i.cmd) != OpBranch
    requires TemplateOk(a, i) && Starts(a, s, m)
    ensures InstRight(sys, a, i, off, s, m) <==> OperandsOk(i, s)
  {
    hide Run, Step, Rep, PlainCode, TemplateOk, OperandsOk, Inv, Fits;
    if OperandsOk(i, s) {
      PlainCorrect(sys, a, i, off, s, m, 0);
    } else if OpcodeOf(i.cmd) == OpLoad {
      LoadFails(sys, a, i, off, s, m);
    } else if OpcodeOf(i.cmd) == OpStore {
      StoreFails(sys, a, i, off, s, m);
    } else if i.cmd == MULH {
      MulhFails(sys, a, i, off, s, m);
    } else {
      OtherOperands(a, i, s);
    }
  }

  /** Eight zero bytes of memory, x and y in x1 and x2. */
  function SmallState(x: Word, y: Word): GState {
    TwoRegs(1, x, 2, y).(mem := [0, 0, 0, 0, 0, 0, 0, 0])
  }

  lemma ConcreteFails(sys: Sys, a: Allocation, i: Inst, off: nat, s: GState) returns (m: Machine)
    requires Inv(a) && i.IsTranslationSupported() && OpcodeOf(i.cmd) != OpBranch && TemplateOk(a, i)
    requires |s.mem| <= WORD && !OperandsOk(i, s)
    ensures Starts(a, s, m) && !InstRight(sys, a, i, off, s, m)
  {
    hide *;
    m := MachineFor(a, s, 0, CLEAR);
    MachineForStarts(a, s, 0, CLEAR);
    OperandsRightExactly(sys, a, i, off, s, m);
  }

  /** lw x3, 1(x1) or sw x2, 1(x1) */
  function WordAccess(cmd: Cmd): Inst
    requires cmd in {LW, SW}
  {
    Inst(cmd, if cmd == LW then 3 else 0, 1, if cmd == LW then 0 else 2, 1)
  }

  lemma WordAccessSteps(sys: Sys, cmd: Cmd, off: nat, s: GState, x: Word)
    requires cmd in {LW, SW} && s == SmallState(x, 7)
    ensures var i := WordAccess(cmd);
            && i.IsTranslationSupported() && OpcodeOf(i.cmd) in {OpLoad, OpStore} && AccessSize(i.cmd) == 4
            && s.regs[i.rs1] == x && Signed(i.imm) == 1 && |s.mem| == 8
            && (OperandsOk(i, s) <==> x < 3) && (Step(sys, i, off, s).Running? <==> Add(x, 1) < 4)
            && forall a :: TemplateOk(a, i)
  {
    hide LoadBytes, StoreBytes, Extend, SetReg, Add;
    assert Signed(1) == 1;
  }

  /** With x1 = 0xFFFFFFFF the interpreter wraps to address 0 and goes on, native code misses the buffer. */
  lemma WrappingAddressFails(sys: Sys, a: Allocation, off: nat, cmd: Cmd) returns (s: GState, m: Machine)
    requires Inv(a) && cmd in {LW, SW}
    ensures Starts(a, s, m) && Step(sys, WordAccess(cmd), off, s).Running?
    ensures !InstRight(sys, a, WordAccess(cmd), off, s, m)
  {
    hide *;
    s := SmallState(0xFFFF_FFFF, 7);
    WordAccessSteps(sys, cmd, off, s, 0xFFFF_FFFF);
    WrapsToZero();
    m := ConcreteFails(sys, a, WordAccess(cmd), off, s);
  }

  lemma WrapsToZero()
    ensures Add(0xFFFF_FFFF, 1) == 0 && Add(3, 1) == 4 && WORD > 8
  {
  }

  /** With x1 = 3 the access ends with the last byte of memory, where the bounds check already throws; native
      code has no check and goes on. */
  lemma OutOfRangeFails(sys: Sys, a: Allocation, off: nat, cmd: Cmd) returns (s: GState, m: Machine)
    requires Inv(a) && cmd in {LW, SW}
    ensures Starts(a, s, m) && Step(sys, WordAccess(cmd), off, s).Stopped?
    ensures !InstRight(sys, a, WordAccess(cmd), off, s, m) && Run(PlainCode(a, WordAccess(cmd), off), m).ok
  {
    hide *;
    s := SmallState(3, 7);
    WordAccessSteps(sys, cmd, off, s, 3);
    WrapsToZero();
    m := ConcreteFails(sys, a, WordAccess(cmd), off, s);
    InBufferRuns(a, WordAccess(cmd), off, s, m);
  }

  lemma InBufferRuns(a: Allocation, i: Inst, off: nat, s: GState, m: Machine)
    requires Inv(a) && OpcodeOf(i.cmd) in {OpLoad, OpStore} && Starts(a, s, m)
    requires 0 <= s.regs[i.rs1] + Signed(i.imm) && s.regs[i.rs1] + Signed(i.imm) + AccessSize(i.cmd) <= |s.mem|
    ensures Run(PlainCode(a, i, off), m).ok
  {
    hide *;
    StartsFacts(a, s, m);
    var d, s1, s2, n := RegOpnd(a, i.rd), RegOpnd(a, i.rs1), RegOpnd(a, i.rs2), AccessSize(i.cmd);
    PlacesOk(a, i.rd);
    PlacesOk(a, i.rs1);
    PlacesOk(a, i.rs2);
    ReadsTheGuest(a, s, m, 0, i.rs1);
    var va := s.regs[i.rs1] + Signed(i.imm);
    IsInBuffer(m, va, n);
    if OpcodeOf(i.cmd) == OpLoad {
      LoadPlain(a, i, off);
      LoadTypeComputes(d, s1, i.imm, n, IsSignedLoad(i.cmd), m);
      OkLikeWrite(d, Extend(LoadBytes(m.g.mem, va, n), n, IsSignedLoad(i.cmd)), m, Run(PlainCode(a, i, off), m));
    } else {
      StorePlain(a, i, off);
      StoreTypeComputes(s1, s2, i.imm, n, m);
      OkLikeStore(va, n, Read(s2, m), m, Run(PlainCode(a, i, off), m));
    }
    IsOk(a, s, m);
  }

  lemma IsOk(a: Allocation, s: GState, m: Machine)
    requires Rep(a, s, m, 0)
    ensures m.ok
  {
  }

  lemma OkLikeWrite(d: Operand, v: Word, m: Machine, n: Machine)
    requires SameButTemps(Write(d, v, m), n)
    ensures n.ok == m.ok
  {
  }

  lemma OkLikeStore(va: nat, size: nat, v: Word, m: Machine, n: Machine)
    requires IsSize(size) && va + size <= |m.g.mem| && SameButTemps(WithStore(m, va, size, v), n)
    ensures n.ok == m.ok
  {
  }

  /** mulh x3, x1, x2 with 0x80000000 and 1: the interpreter computes 0xFFFFFFFF, native code 0. */
  lemma NegativeMulhFails(sys: Sys, a: Allocation, off: nat) returns (s: GState, m: Machine)
    requires Inv(a)
    ensures var i := Inst(MULH, 3, 1, 2, 0);
            Starts(a, s, m) && Step(sys, i, off, s) == Running(SetReg(s, 3, 0xFFFF_FFFF)) && !InstRight(sys, a, i, off, s, m)
  {
    hide *;
    s := NegativeState(sys, off);
    m := ConcreteFails(sys, a, Inst(MULH, 3, 1, 2, 0), off, s);
  }

  lemma NegativeState(sys: Sys, off: nat) returns (s: GState)
    ensures var i := Inst(MULH, 3, 1, 2, 0);
            && Step(sys, i, off, s) == Running(SetReg(s, 3, 0xFFFF_FFFF)) && |s.mem| <= WORD && !OperandsOk(i, s)
            && i.IsTranslationSupported() && OpcodeOf(i.cmd) == OpReg && forall a :: TemplateOk(a, i)
  {
    hide UpperHalf, SetReg, TwoRegs, RegResult;
    s := SmallState(HALF, 1);
    SmallRegs(HALF, 1);
    MulhOfHalf();
  }

  lemma SmallRegs(x: Word, y: Word)
    ensures var s := SmallState(x, y); s.regs[1] == x && s.regs[2] == y && |s.mem| == 8
  {
  }

  lemma MulhOfHalf()
    ensures IsRegArith(MULH) && RegResult(MULH, HALF, 1) == 0xFFFF_FFFF && MulhCorrection(HALF, 1) == 1
  {
    assert Signed(HALF) * Signed(1) == -HALF && UpperHalf(-HALF) == 0xFFFF_FFFF;
  }

  /** The template of a supported instruction is right in exactly the states with acceptable operand values
      if and only if the side condition on its operand places holds; a conditional branch has none. */
  lemma TemplateRightExactly(sys: Sys, a: Allocation, i: Inst, off: nat)
    requires Inv(a) && i.IsTranslationSupported() && OpcodeOf(i.cmd) != OpBranch
    ensures TemplateRight(sys, a, i, off) <==> TemplateOk(a, i)
  {
    if TemplateOk(a, i) {
      hide TemplateOk, OperandsOk, Inv, InstRight, Starts;
      forall s, m | Starts(a, s, m)
        ensures InstRight(sys, a, i, off, s, m) <==> OperandsOk(i, s)
      {
        OperandsRightExactly(sys, a, i, off, s, m);
      }
    } else {
      hide TemplateRight, Inv;
      if i.cmd in {ADD, SUB, XOR, OR, AND} {
        DroppedFails(sys, a, i, off);
      } else if i.cmd in {SLTI, SLTIU} {
        SetImmFails(sys, a, i, off);
      } else if i.cmd in {MUL, MULH} {
        MulFails(sys, a, i, off);
      } else {
        ShiftFails(sys, a, i, off);
      }
    }
  }

  // ----- which commands are translated -----

  /** Commands that print a message at most, or are not modelled further: doing nothing is right. */
  predicate HasNoEffect(c: Cmd) {
    c in {EBREAK, URET, SRET, MRET, WFI, CSRRS, CSRRC, CSRRWI, CSRRSI, CSRRCI}
  }

  /** For every allocation and placement within the side conditions the code of the command is right. */
  ghost predicate CommandRight(c: Cmd) {
    forall sys, a, i: Inst, off :: Inv(a) && i.cmd == c && TemplateOk(a, i) ==> TemplateRight(sys, a, i, off)
  }

  function AnyInst(c: Cmd): Inst {
    Inst(c, 3, 0, 2, 0)
  }

  /** The command table marks as translatable just the commands whose code is right, those without effect apart. */
  lemma SupportedExactly(c: Cmd)
    ensures OpcodeOf(c) != OpBranch ==>
              (AnyInst(c).IsTranslationSupported() || HasNoEffect(c) <==> CommandRight(c))
    ensures OpcodeOf(c) == OpBranch ==> AnyInst(c).IsTranslationSupported()
  {
    hide TemplateRight, TemplateOk, Inv;
    if OpcodeOf(c) != OpBranch {
      if AnyInst(c).IsTranslationSupported() || HasNoEffect(c) {
        forall sys, a, i: Inst, off | Inv(a) && i.cmd == c && TemplateOk(a, i)
          ensures TemplateRight(sys, a, i, off)
        {
          if HasNoEffect(c) {
            NoCodeRight(sys, a, i, off);
          } else {
            TemplateRightExactly(sys, a, i, off);
          }
        }
      } else {
        UntranslatedFails(c);
      }
    }
  }

  lemma NoCodeRight(sys: Sys, a: Allocation, i: Inst, off: nat)
    requires HasNoEffect(i.cmd)
    ensures TemplateRight(sys, a, i, off)
  {
    hide Rep, Fits;
    NothingDone(sys, a, i, off);
  }

  lemma NothingDone(sys: Sys, a: Allocation, i: Inst, off: nat)
    requires HasNoEffect(i.cmd)
    ensures PlainCode(a, i, off) == [] && forall s :: Step(sys, i, off, s) == Running(s) && OperandsOk(i, s)
  {
    hide Step, OperandsOk;
    assert OpcodeOf(i.cmd) == OpSystem;
    forall s
      ensures Step(sys, i, off, s) == Running(s) && OperandsOk(i, s)
    {
      SystemGoesOn(sys, i, off, s);
    }
  }

  lemma SystemGoesOn(sys: Sys, i: Inst, off: nat, s: GState)
    requires OpcodeOf(i.cmd) == OpSystem && i.cmd != ECALL && i.cmd != CSRRW
    ensures Step(sys, i, off, s) == Running(s) && OperandsOk(i, s)
  {
    hide SetReg, LoadBytes, StoreBytes, Extend, ImmResult, RegResult, BranchTaken, SysCall, And, Add, Wrap, Signed, AccessSize;
  }

  lemma UntranslatedFails(c: Cmd)
    requires c in {MULHSU, MULHU, DIV, DIVU, REM, REMU, FENCE, ECALL, CSRRW}
    ensures !CommandRight(c)
  {
    hide TemplateRight, Inv;
    var sys: Sys := (regs, mem) => SysStop;
    var a, i := InitialAllocation(), AnyInst(c);
    InitialInv();
    assert TemplateOk(a, i);
    if IsRegArith(c) {
      UntranslatedArith(sys, a, i);
    } else {
      UntranslatedOther(sys, a, i);
    }
  }

  lemma UntranslatedArith(sys: Sys, a: Allocation, i: Inst)
    requires a == InitialAllocation() && Inv(a) && i == AnyInst(i.cmd) && i.cmd in {MULHSU, MULHU, DIV, DIVU, REM, REMU}
    ensures !TemplateRight(sys, a, i, 0)
  {
    hide *;
    var s := TwoRegs(3, 9, 2, 0);
    var m := MachineFor(a, s, 0, CLEAR);
    UntranslatedValues(a, i, s);
    MachineForStarts(a, s, 0, CLEAR);
    ReadsTheGuest(a, s, m, 0, 3);
    PlacesOk(a, 3);
    WriteBack(RegOpnd(a, 3), 9, m);
    Refutes(sys, a, i, 0, s, m, 9, RegResult(i.cmd, s.regs[i.rs1], s.regs[i.rs2]));
  }

  lemma UntranslatedValues(a: Allocation, i: Inst, s: GState)
    requires i == AnyInst(i.cmd) && i.cmd in {MULHSU, MULHU, DIV, DIVU, REM, REMU} && s == TwoRegs(3, 9, 2, 0)
    ensures IsRegArith(i.cmd) && !IsImmArith(i.cmd) && RegResult(i.cmd, s.regs[i.rs1], s.regs[i.rs2]) != 9
    ensures i.rd == 3 && s.regs[3] == 9 && OperandsOk(i, s) && PlainCode(a, i, 0) == [] && |s.mem| <= WORD
  {
    ZeroResults(i.cmd);
    hide RegResult;
  }

  lemma ZeroResults(c: Cmd)
    requires c in {MULHSU, MULHU, DIV, DIVU, REM, REMU}
    ensures RegResult(c, 0, 0) != 9
  {
    hide Shl, Shr, And, Or, Xor, Add, Sub, ShiftRightArith, TruncDiv, TruncRem;
    assert Signed(0) == 0 && UpperHalf(0) == 0;
  }

  /** Writing what is there, with no code, is no change. */
  lemma WriteBack(d: Operand, v: Word, m: Machine)
    requires IsPlace(d) && Read(d, m) == v
    ensures SameButTemps(Write(d, v, m), Run([], m))
  {
  }

  lemma UntranslatedOther(sys: Sys, a: Allocation, i: Inst)
    requires a == InitialAllocation() && Inv(a) && i == AnyInst(i.cmd) && i.cmd in {FENCE, ECALL, CSRRW}
    requires sys == ((regs, mem) => SysStop)
    ensures !TemplateRight(sys, a, i, 0)
  {
    hide *;
    var s := TwoRegs(3, 9, 2, 0);
    var m := MachineFor(a, s, 0, CLEAR);
    OtherOperandsOk(i, s);
    MachineForStarts(a, s, 0, CLEAR);
    OtherStep(sys, i, s);
    MovedPc(a, i, s, m);
    NotRight(sys, a, i, 0, s, m);
    RightNowhere(sys, a, i, s, m);
  }

  lemma OtherOperandsOk(i: Inst, s: GState)
    requires i == AnyInst(i.cmd) && i.cmd in {FENCE, ECALL, CSRRW} && s == TwoRegs(3, 9, 2, 0)
    ensures OperandsOk(i, s) && |s.mem| <= WORD
  {
  }

  lemma OtherStep(sys: Sys, i: Inst, s: GState)
    requires i == AnyInst(i.cmd) && i.cmd in {FENCE, ECALL, CSRRW} && s == TwoRegs(3, 9, 2, 0)
    requires sys(s.regs, s.mem) == SysStop
    ensures if i.cmd == FENCE then Step(sys, i, 0, s) == Running(s.(pc := 4)) else Step(sys, i, 0, s).Stopped?
  {
    hide Step, TwoRegs;
    TwoRegsPc(3, 9, 2, 0);
    if i.cmd == FENCE {
      FenceStep(sys, i, s);
    } else {
      StopStep(sys, i, s);
    }
  }

  lemma TwoRegsPc(r: Reg, x: Word, t: Reg, y: Word)
    requires r != 0 && t != 0
    ensures TwoRegs(r, x, t, y).pc == 0
  {
  }

  lemma FenceStep(sys: Sys, i: Inst, s: GState)
    requires i.cmd == FENCE && s.pc == 0
    ensures Step(sys, i, 0, s) == Running(s.(pc := 4))
  {
    hide SetReg, LoadBytes, StoreBytes, Extend, ImmResult, RegResult, BranchTaken, And, AccessSize, SysCall, Signed;
    assert Add(Add(0, Wrap(0)), 4) == 4;
  }

  lemma StopStep(sys: Sys, i: Inst, s: GState)
    requires i.cmd in {ECALL, CSRRW} && i.imm == 0 && sys(s.regs, s.mem) == SysStop
    ensures Step(sys, i, 0, s).Stopped?
  {
    hide SetReg, LoadBytes, StoreBytes, Extend, ImmResult, RegResult, BranchTaken, And, AccessSize, WriteAll, Add, Wrap;
  }

  /** No code at all leaves pc where it is. */
  lemma MovedPc(a: Allocation, i: Inst, s: GState, m: Machine)
    requires i == AnyInst(FENCE) || i == AnyInst(ECALL) || i == AnyInst(CSRRW)
    requires s == TwoRegs(3, 9, 2, 0) && Rep(a, s, m, 0)
    ensures !Rep(a, s.(pc := 4), Run(PlainCode(a, i, 0), m), 0)
  {
    hide Step, TwoRegs;
    TwoRegsPc(3, 9, 2, 0);
    NoCode(a, i);
  }

  lemma NoCode(a: Allocation, i: Inst)
    requires OpcodeOf(i.cmd) in {OpSystem, OpMiscMem}
    ensures PlainCode(a, i, 0) == []
  {
  }

  lemma RightNowhere(sys: Sys, a: Allocation, i: Inst, s: GState, m: Machine)
    requires Starts(a, s, m) && OperandsOk(i, s) && !InstRight(sys, a, i, 0, s, m)
    ensures !TemplateRight(sys, a, i, 0)
  {
    hide InstRight, Starts, OperandsOk;
  }
}
