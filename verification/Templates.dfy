/** The code templates: what the translator appends for one instruction. */
module Templates {
  import opened Words
  import opened Isa
  import opened Guest
  import opened Rv32m
  import opened Host
  import opened Alloc

  /** Clearing a register with xor, otherwise a plain mov. */
  function Move(d: Operand, s: Operand): (code: seq<Instr>)
    ensures Straight(code)
  {
    if d.IsReg() && s == Imm(0) then Emit(Bin(XorB, d, d)) else Emit(Mov(d, s))
  }

  // ----- shared templates -----

  function ImmType(d: Operand, s: Operand, imm: Word, op: BinOp): (code: seq<Instr>)
    ensures Straight(code)
  {
    if d.IsImm() then []
    else
      (if d == s then []
       else if d.IsReg() || s.IsReg() then Move(d, s)
       else Move(R(EAX), s) + Move(d, R(EAX)))
      + Emit(Bin(op, d, Imm(Signed(imm))))
  }

  function RegType(d: Operand, s1: Operand, s2: Operand, op: BinOp): (code: seq<Instr>)
    ensures Straight(code)
  {
    if d.IsImm() then []
    else if d == s1 then
      if d.IsReg() || s2.IsReg() then Emit(Bin(op, d, s2))
      else Move(R(EAX), s2) + Emit(Bin(op, d, R(EAX)))
    else if d != s2 && (d.IsReg() || !s1.IsMem()) then
      Move(d, s1) + Emit(Bin(op, d, s2))
    else
      Move(R(EAX), s1) + Emit(Bin(op, R(EAX), s2)) + Move(d, R(EAX))
  }

  /** The copy of the first operand that opens a shift. */
  function ShiftFront(d: Operand, s1: Operand): (code: seq<Instr>)
    ensures Straight(code)
  {
    var dst := if d.IsMem() then R(EAX) else d;
    (if dst != s1 then Move(dst, s1) else []) + (if d.IsMem() then Move(d, R(EAX)) else [])
  }

  /** Shift d by the low bits of s2, saving and restoring ecx around it. */
  function ShiftByCount(d: Operand, s2: Operand, op: BinOp): (code: seq<Instr>)
    ensures Straight(code)
  {
    if s2.IsImm() then []
    else Move(R(EAX), R(ECX)) + Move(R(ECX), s2) + Emit(Bin(op, d, R(ECX))) + Move(R(ECX), R(EAX))
  }

  function ShiftType(d: Operand, s1: Operand, s2: Operand, op: BinOp): (code: seq<Instr>)
    ensures Straight(code)
  {
    if d.IsImm() then [] else ShiftFront(d, s1) + ShiftByCount(d, s2, op)
  }

  /** A copy that goes through eax when neither side is a register. */
  function CopyType(d: Operand, s: Operand): (code: seq<Instr>)
    ensures Straight(code)
  {
    if d.IsReg() || s.IsReg() then Move(d, s) else Move(R(EAX), s) + Move(d, R(EAX))
  }

  function Compare(s1: Operand, s2: Operand): (code: seq<Instr>)
    ensures Straight(code)
  {
    if s1.IsMem() || s1.IsImm() then Move(R(EAX), s1) + Emit(Cmp(R(EAX), s2)) else Emit(Cmp(s1, s2))
  }

  function SetFlag(d: Operand, c: Cond): (code: seq<Instr>)
    ensures Straight(code)
  {
    Emit(Mov(d, Imm(0))) + Emit(Set(c, d))
  }

  function AddressOf(s1: Operand): (code: seq<Instr>)
    ensures Straight(code)
  {
    Move(R(EAX), s1) + Emit(AddMemBase)
  }

  function LoadTail(d: Operand, size: nat, signed: bool, disp: int): (code: seq<Instr>)
    ensures Straight(code)
  {
    if d.IsReg() then Emit(LoadMem(d.h, size, signed, disp))
    else Emit(LoadMem(EDX, size, signed, disp)) + Move(d, R(EDX))
  }

  function LoadType(d: Operand, s1: Operand, imm: Word, size: nat, signed: bool): (code: seq<Instr>)
    ensures Straight(code)
  {
    AddressOf(s1) + LoadTail(d, size, signed, Signed(imm))
  }

  function StoreTail(s2: Operand, size: nat, disp: int): (code: seq<Instr>)
    ensures Straight(code)
  {
    if s2.IsReg() then Emit(StoreMem(size, disp, s2.h))
    else Move(R(EDX), s2) + Emit(StoreMem(size, disp, EDX))
  }

  function StoreType(s1: Operand, s2: Operand, imm: Word, size: nat): (code: seq<Instr>)
    ensures Straight(code)
  {
    AddressOf(s1) + StoreTail(s2, size, Signed(imm))
  }

  function MulType(d: Operand, s1: Operand, s2: Operand, half: HostReg): (code: seq<Instr>)
    ensures Straight(code)
  {
    Move(R(EAX), s1) + Emit(Mul(s2)) + Move(d, R(half))
  }

  // ----- one template per instruction -----

  function ImmOp(c: Cmd): BinOp
    requires c in {ADDI, XORI, ORI, ANDI, SLLI, SRLI, SRAI}
  {
    match c
    case ADDI => AddB
    case XORI => XorB
    case ORI => OrB
    case ANDI => AndB
    case SLLI => ShlB
    case SRLI => ShrB
    case SRAI => SarB
  }

  function RegOp(c: Cmd): BinOp
    requires c in {ADD, SUB, XOR, OR, AND, SLL, SRL, SRA}
  {
    match c
    case ADD => AddB
    case SUB => SubB
    case XOR => XorB
    case OR => OrB
    case AND => AndB
    case SLL => ShlB
    case SRL => ShrB
    case SRA => SarB
  }

  function BranchCond(c: Cmd): Cond
    requires OpcodeOf(c) == OpBranch
  {
    match c
    case BEQ => CondE
    case BNE => CondNE
    case BLT => CondL
    case BGE => CondGE
    case BLTU => CondB
    case BGEU => CondAE
  }

  function ImmArithCode(c: Cmd, d: Operand, s: Operand, imm: Word): (code: seq<Instr>)
    requires IsImmArith(c)
    ensures Straight(code)
  {
    match c
    case ADDI =>
      if s.IsImm() then Move(d, Imm(Signed(imm)))
      else if imm == 0 then CopyType(d, s)
      else ImmType(d, s, imm, AddB)
    case SLTI => Emit(Cmp(s, Imm(Signed(imm)))) + SetFlag(d, CondL)
    case SLTIU => Emit(Cmp(s, Imm(imm))) + SetFlag(d, CondB)
    case XORI | ORI | ANDI | SLLI | SRLI | SRAI => ImmType(d, s, imm, ImmOp(c))
  }

  /** Register-register commands; those without a translation function have no code. */
  function RegArithCode(c: Cmd, d: Operand, s1: Operand, s2: Operand): (code: seq<Instr>)
    requires IsRegArith(c)
    ensures Straight(code)
  {
    match c
    case ADD =>
      (if s1.IsImm() || s2.IsImm() then CopyType(d, if s1.IsImm() then s2 else s1) else [])
      + RegType(d, s1, s2, AddB)
    case SUB | XOR | OR | AND => RegType(d, s1, s2, RegOp(c))
    case SLL | SRL | SRA => ShiftType(d, s1, s2, RegOp(c))
    case SLT => Compare(s1, s2) + SetFlag(d, CondL)
    case SLTU => Compare(s1, s2) + SetFlag(d, CondB)
    case MUL => MulType(d, s1, s2, EAX)
    case MULH => MulType(d, s1, s2, EDX)
    case _ => []
  }

  function AuipcCode(d: Operand, off: nat, imm: Word): (code: seq<Instr>)
    ensures Straight(code)
  {
    Move(R(EAX), PcField) + Emit(Bin(AddB, R(EAX), Imm(off + imm))) + Move(d, R(EAX))
  }

  /** d := pc + k, unless d is x0. */
  function LinkCode(d: Operand, k: nat): (code: seq<Instr>)
    ensures Straight(code)
  {
    if d.IsImm() then [] else Move(R(EAX), PcField) + Move(d, R(EAX)) + Emit(Bin(AddB, d, Imm(k)))
  }

  function JalCode(d: Operand, off: nat, imm: Word): (code: seq<Instr>)
    ensures Straight(code)
  {
    LinkCode(d, off + 4)
    + Emit(Bin(AddB, PcField, Imm(off + 2 * Signed(imm))))
  }

  /** pc := (s + imm) with bit 0 cleared. */
  function JumpCode(s: Operand, imm: Word): (code: seq<Instr>)
    ensures Straight(code)
  {
    Move(R(EAX), s) + Emit(Bin(AddB, R(EAX), Imm(Signed(imm)))) + Emit(Bin(AndB, R(EAX), Imm(0xFFFF_FFFE)))
    + Move(PcField, R(EAX))
  }

  /** The return address is computed in pc itself and copied to rd before the source register is read. */
  function JalrCode(d: Operand, s: Operand, off: nat, imm: Word): (code: seq<Instr>)
    ensures Straight(code)
  {
    Emit(Bin(AddB, PcField, Imm(off + 4))) + (Move(R(EAX), PcField) + Move(d, R(EAX))) + JumpCode(s, imm)
  }

  const START: LabelId := 0
  const TAKEN: LabelId := 1
  const EXIT: LabelId := 2

  function TakenOffset(off: nat, imm: Word): int { off + 2 * Signed(imm) }

  /** The tail of a branch that leaves the trace either way. */
  function ExitTail(c: Cond, off: nat, imm: Word): seq<Instr> {
    Emit(Jcc(c, TAKEN)) + Emit(Bin(AddB, PcField, Imm(off + 4))) + Emit(Jmp(EXIT)) + Emit(Bind(TAKEN))
    + Emit(Bin(AddB, PcField, Imm(TakenOffset(off, imm)))) + Emit(Bind(EXIT))
  }

  /** The tail of a branch back to the trace head: it re-enters the compiled function. */
  function LoopTail(c: Cond, off: nat): seq<Instr> {
    Emit(Jcc(c, START)) + Emit(Bin(AddB, PcField, Imm(off + 4)))
  }

  function BranchCode(a: Allocation, i: Inst, off: nat): Coded
    requires OpcodeOf(i.cmd) == OpBranch
  {
    var cmp, c := Compare(RegOpnd(a, i.rs1), RegOpnd(a, i.rs2)), BranchCond(i.cmd);
    if TakenOffset(off, i.imm) != 0 then Coded(cmp + ExitTail(c, off, i.imm), a)
    else
      var all := DeallocateFrom(a, 1);
      Coded(cmp + all.code + LoopTail(c, off), all.a)
  }

  /** Code of an instruction other than a conditional branch. */
  function PlainCode(a: Allocation, i: Inst, off: nat): (code: seq<Instr>)
    ensures Straight(code)
  {
    var d, s1, s2 := RegOpnd(a, i.rd), RegOpnd(a, i.rs1), RegOpnd(a, i.rs2);
    match OpcodeOf(i.cmd)
    case OpLui => Move(d, Imm(i.imm))
    case OpAuipc => AuipcCode(d, off, i.imm)
    case OpJal => JalCode(d, off, i.imm)
    case OpJalr => JalrCode(d, s1, off, i.imm)
    case OpLoad => LoadType(d, s1, i.imm, AccessSize(i.cmd), IsSignedLoad(i.cmd))
    case OpStore => StoreType(s1, s2, i.imm, AccessSize(i.cmd))
    case OpImm => ImmArithCode(i.cmd, d, s1, i.imm)
    case OpReg => RegArithCode(i.cmd, d, s1, s2)
    case OpBranch | OpSystem | OpMiscMem => []
  }

  /** `inst.translate(tr)`: code of one instruction and the allocation after it. */
  function Translate(a: Allocation, i: Inst, off: nat): Coded
  {
    if OpcodeOf(i.cmd) == OpBranch then BranchCode(a, i, off) else Coded(PlainCode(a, i, off), a)
  }

  // ----- the side conditions, read off the operands -----

  /** `op RD, RS2` with both operands in memory has no encoding, and this path does not avoid it. */
  predicate DropsRegType(d: Operand, s1: Operand, s2: Operand) {
    d.IsMem() && s2.IsMem() && d != s1 && d != s2 && !s1.IsMem()
  }

  /** The template is right for every machine state; x0 makes several of the bad cases harmless. */
  predicate TemplateOk(a: Allocation, i: Inst)
  {
    var d, s1, s2 := RegOpnd(a, i.rd), RegOpnd(a, i.rs1), RegOpnd(a, i.rs2);
    match i.cmd
    case ADD | SUB | XOR | OR => !DropsRegType(d, s1, s2)
    case AND => !DropsRegType(d, s1, s2) || i.rs1 == 0
    case SLTI | SLTIU => i.rd == 0 || i.rs1 != 0
    case MUL => i.rd == 0 || i.rs2 != 0 || i.rs1 == 0
    case MULH => i.rd == 0 || i.rs2 != 0
    case SLL | SRL | SRA =>
      || i.rd == 0 || i.rs2 == 0 || i.rs1 == 0
      || (d != R(ECX) && (i.rd != i.rs2 || i.rd == i.rs1))
    case _ => true
  }

  /** What native code takes for granted about the operands: no bounds check, no address wrap, and
      the unsigned multiply, which does not matter when its result goes to x0. */
  predicate OperandsOk(i: Inst, s: GState) {
    match OpcodeOf(i.cmd)
    case OpLoad | OpStore =>
      var va := s.regs[i.rs1] + Signed(i.imm);
      0 <= va < WORD && !OutOfMemory(s.mem, va, AccessSize(i.cmd))
    case _ => i.cmd == MULH && i.rd != 0 ==> MulhCorrection(s.regs[i.rs1], s.regs[i.rs2]) == 0
  }
}
