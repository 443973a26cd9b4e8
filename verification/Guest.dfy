/** The simulated machine and the meaning the interpreter gives to each instruction. */
module Guest {
  import opened Words
  import opened Isa

  const TWO64 := 0x1_0000_0000_0000_0000

  // ----- machine state -----

  datatype StateRep = StateRep(regs: seq<Word>, pc: Word, mem: seq<Byte>, executed: nat)

  /** Register x0 is never written, so it reads as zero for ever; the counter has 64 bits. */
  type GState = s: StateRep | |s.regs| == 32 && s.regs[0] == 0 && s.executed < TWO64
    witness StateRep(seq(32, _ => 0), 0, [], 0)

  /** The interpreter goes on, or an exception ends the simulation in the given state. */
  datatype Outcome = Running(s: GState) | Stopped(s: GState)

  function SetReg(s: GState, r: Reg, v: Word): (t: GState)
    ensures forall i: Reg :: t.regs[i] == if i == r && r != 0 then v else s.regs[i]
    ensures t.pc == s.pc && t.mem == s.mem && t.executed == s.executed
  {
    if r == 0 then s else s.(regs := s.regs[r := v])
  }

  /** `executed_insts` is a 64-bit counter. */
  function Count(s: GState, n: nat): GState {
    s.(executed := (s.executed + n) % TWO64)
  }

  // ----- memory: little-endian accesses of 1, 2 or 4 bytes -----

  predicate IsSize(n: nat) { n == 1 || n == 2 || n == 4 }

  function LoadBytes(mem: seq<Byte>, a: nat, n: nat): Word
    requires IsSize(n) && a + n <= |mem|
  {
    var b0: int := mem[a];
    if n == 1 then b0
    else
      var b1: int := mem[a + 1];
      if n == 2 then b0 + 0x100 * b1
      else
        var b2: int, b3: int := mem[a + 2], mem[a + 3];
        b0 + 0x100 * b1 + 0x1_0000 * b2 + 0x100_0000 * b3
  }

  function StoreBytes(mem: seq<Byte>, a: nat, n: nat, v: Word): (r: seq<Byte>)
    requires IsSize(n) && a + n <= |mem|
    ensures |r| == |mem|
    ensures forall i :: 0 <= i < |mem| && !(a <= i < a + n) ==> r[i] == mem[i]
  {
    var m := mem[a := v % 0x100];
    if n == 1 then m
    else if n == 2 then m[a + 1 := v / 0x100 % 0x100]
    else m[a + 1 := v / 0x100 % 0x100][a + 2 := v / 0x1_0000 % 0x100][a + 3 := v / 0x100_0000 % 0x100]
  }

  /** Widening of an n-byte value to a register. */
  function Extend(v: Word, n: nat, signed: bool): Word
    requires IsSize(n)
  {
    if !signed || n == 4 then v
    else if n == 1 then (if v % 0x100 < 0x80 then v % 0x100 else v % 0x100 + 0xFFFF_FF00)
    else if v % 0x1_0000 < 0x8000 then v % 0x1_0000 else v % 0x1_0000 + 0xFFFF_0000
  }

  /** The interpreter's bounds check throws when the byte after the access is not inside memory. */
  predicate OutOfMemory(mem: seq<Byte>, va: Word, n: nat) {
    va + n >= |mem|
  }

  // ----- arithmetic of the instructions -----

  /** Quotient rounded towards zero, as in C++. */
  function TruncDiv(a: int, b: int): int
    requires b != 0
  {
    var q := (if a < 0 then -a else a) / (if b < 0 then -b else b);
    if (a < 0) == (b < 0) then q else -q
  }

  /** C++ remainder: the sign follows the dividend. */
  function TruncRem(a: int, b: int): int
    requires b != 0
  {
    a - TruncDiv(a, b) * b
  }

  /** Upper half of a 64-bit unsigned value. */
  function UpperHalf(x: int): Word {
    x % 0x1_0000_0000_0000_0000 / 0x1_0000_0000
  }

  function ShiftRightArith(a: Word, n: nat): Word {
    var mask := if Signed(a) < 0 && n > 0 then Not(Shr(0xFFFF_FFFF, n)) else 0;
    Or(Shr(a, n), mask)
  }

  function Bool(b: bool): Word { if b then 1 else 0 }

  predicate IsImmArith(c: Cmd) { OpcodeOf(c) == OpImm }

  predicate IsRegArith(c: Cmd) { OpcodeOf(c) == OpReg }

  function ImmResult(c: Cmd, a: Word, imm: Word): Word
    requires IsImmArith(c)
  {
    match c
    case ADDI => Add(a, imm)
    case SLTI => Bool(Signed(a) < Signed(imm))
    case SLTIU => Bool(a < imm)
    case XORI => Xor(a, imm)
    case ORI => Or(a, imm)
    case ANDI => And(a, imm)
    case SLLI => Shl(a, imm)
    case SRLI => Shr(a, imm)
    case SRAI => ShiftRightArith(a, imm)
  }

  function RegResult(c: Cmd, a: Word, b: Word): Word
    requires IsRegArith(c)
  {
    match c
    case ADD => Add(a, b)
    case SUB => Sub(a, b)
    case SLL => Shl(a, b % 32)
    case SLT => Bool(Signed(a) < Signed(b))
    case SLTU => Bool(a < b)
    case XOR => Xor(a, b)
    case SRL => Shr(a, b % 32)
    case SRA => ShiftRightArith(a, b % 32)
    case OR => Or(a, b)
    case AND => And(a, b)
    case MUL => Wrap(a * b)
    case MULH => UpperHalf(Signed(a) * Signed(b))
    case MULHSU => UpperHalf((Signed(a) % TWO64) * b)
    case MULHU => UpperHalf(a * b)
    case DIV =>
      if b == 0 then 0xFFFF_FFFF
      else if Signed(b) == -1 && Signed(a) == -0x8000_0000 then 0x8000_0000
      else Wrap(TruncDiv(Signed(a), Signed(b)))
    case DIVU => if b != 0 then Wrap(a / b) else 0xFFFF_FFFF
    case REM =>
      if b == 0 then a
      else if Signed(b) == -1 && Signed(a) == -0x8000_0000 then 0
      else Wrap(TruncRem(Signed(a), Signed(b)))
    case REMU => if b != 0 then a % b else a
  }

  predicate BranchTaken(c: Cmd, a: Word, b: Word)
    requires OpcodeOf(c) == OpBranch
  {
    match c
    case BEQ => Signed(a) == Signed(b)
    case BNE => Signed(a) != Signed(b)
    case BLT => Signed(a) < Signed(b)
    case BGE => Signed(a) >= Signed(b)
    case BLTU => a < b
    case BGEU => a >= b
  }

  function AccessSize(c: Cmd): (n: nat)
    requires OpcodeOf(c) == OpLoad || OpcodeOf(c) == OpStore
    ensures IsSize(n)
  {
    match c
    case LB | LBU | SB => 1
    case LH | LHU | SH => 2
    case LW | SW => 4
  }

  predicate IsSignedLoad(c: Cmd) { c == LB || c == LH || c == LW }

  // ----- system calls: an arbitrary answer of the host -----

  /** A call stops the simulation, or stores bytes and sets a0. */
  datatype SysEffect = SysStop | SysReturn(a0: Word, writes: seq<(Word, Byte)>)

  /** What a call does may depend on the registers and on memory, but not on the program counter. */
  type Sys = (seq<Word>, seq<Byte>) -> SysEffect

  const A0: Reg := 10

  function WriteAll(s: GState, writes: seq<(Word, Byte)>): (o: Outcome)
    ensures o.s.pc == s.pc && o.s.regs == s.regs && o.s.executed == s.executed && |o.s.mem| == |s.mem|
    decreases |writes|
  {
    if writes == [] then Running(s)
    else if OutOfMemory(s.mem, writes[0].0, 1) then Stopped(s)
    else WriteAll(s.(mem := StoreBytes(s.mem, writes[0].0, 1, writes[0].1)), writes[1..])
  }

  function SysCall(sys: Sys, s: GState): Outcome {
    match sys(s.regs, s.mem)
    case SysStop => Stopped(s)
    case SysReturn(a0, writes) =>
      match WriteAll(s, writes)
      case Running(t) => Running(SetReg(t, A0, a0))
      case Stopped(t) => Stopped(t)
  }

  // ----- one instruction of a trace -----

  /** Effect of the instruction `off` bytes after the trace head, where pc still points at the head. */
  function Step(sys: Sys, inst: Inst, off: nat, s: GState): (o: Outcome)
    ensures o.s.executed == s.executed && |o.s.mem| == |s.mem|
    ensures !inst.IsTerminator() ==> o.s.pc == s.pc
  {
    var a, b := s.regs[inst.rs1], s.regs[inst.rs2];
    var curPc := Add(s.pc, Wrap(off));
    match OpcodeOf(inst.cmd)
    case OpLui => Running(SetReg(s, inst.rd, inst.imm))
    case OpAuipc => Running(SetReg(s, inst.rd, Add(curPc, inst.imm)))
    case OpJal =>
      Running(SetReg(s, inst.rd, Add(curPc, 4)).(pc := Wrap(curPc + 2 * Signed(inst.imm))))
    case OpJalr =>
      var t := SetReg(s, inst.rd, Add(curPc, 4));
      var target := Add(t.regs[inst.rs1], inst.imm);
      Running(t.(pc := And(target, 0xFFFF_FFFE)))
    case OpBranch =>
      Running(s.(pc := if BranchTaken(inst.cmd, a, b) then Wrap(curPc + 2 * Signed(inst.imm)) else Add(curPc, 4)))
    case OpLoad =>
      var va, n := Add(a, inst.imm), AccessSize(inst.cmd);
      if OutOfMemory(s.mem, va, n) then Stopped(s)
      else Running(SetReg(s, inst.rd, Extend(LoadBytes(s.mem, va, n), n, IsSignedLoad(inst.cmd))))
    case OpStore =>
      var va, n := Add(a, inst.imm), AccessSize(inst.cmd);
      if OutOfMemory(s.mem, va, n) then Stopped(s)
      else Running(s.(mem := StoreBytes(s.mem, va, n, b)))
    case OpImm => Running(SetReg(s, inst.rd, ImmResult(inst.cmd, a, inst.imm)))
    case OpReg => Running(SetReg(s, inst.rd, RegResult(inst.cmd, a, b)))
    case OpMiscMem => Running(s.(pc := Add(curPc, 4)))
    case OpSystem =>
      if inst.cmd == ECALL then SysCall(sys, s)
      else if inst.cmd == CSRRW && (Signed(inst.imm) != 0x180 || a >= HALF) then Stopped(s)
      else Running(s)
  }

  // ----- a whole trace -----

  /** The NEXT_INST chain from instruction i on. */
  function RunFrom(sys: Sys, trace: seq<Inst>, i: nat, s: GState): (o: Outcome)
    requires IsTrace(trace) && i < |trace|
    ensures o.s.executed == s.executed && |o.s.mem| == |s.mem|
    decreases |trace| - i
  {
    match Step(sys, trace[i], 4 * i, s)
    case Stopped(t) => Stopped(t)
    case Running(t) => if trace[i].IsTerminator() then Running(t) else RunFrom(sys, trace, i + 1, t)
  }

  /** One interpreted execution of a trace; the counter moves only when no exception was thrown. */
  function RunTrace(sys: Sys, trace: seq<Inst>, s: GState): (o: Outcome)
    requires IsTrace(trace)
    ensures |o.s.mem| == |s.mem|
  {
    match RunFrom(sys, trace, 0, s)
    case Stopped(t) => Stopped(t)
    case Running(t) => Running(Count(t, |trace|))
  }
}
