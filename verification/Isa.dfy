/** Commands, opcodes and decoded instructions of RV32IM. */
module Isa {
  import opened Words

  type Reg = r: int | 0 <= r < 32

  datatype Format = FormatR | FormatI | FormatS | FormatB | FormatU | FormatJ

  datatype Opcode =
    | OpLoad | OpStore | OpBranch | OpJalr | OpJal | OpImm | OpReg | OpSystem | OpAuipc | OpLui | OpMiscMem

  datatype Cmd =
    | LUI | AUIPC | JAL | JALR
    | BEQ | BNE | BLT | BGE | BLTU | BGEU
    | LB | LH | LW | LBU | LHU
    | SB | SH | SW
    | ADDI | SLTI | SLTIU | XORI | ORI | ANDI | SLLI | SRLI | SRAI
    | ADD | SUB | SLL | SLT | SLTU | XOR | SRL | SRA | OR | AND
    | ECALL | EBREAK | URET | SRET | MRET | WFI
    | FENCE
    | CSRRW | CSRRS | CSRRC | CSRRWI | CSRRSI | CSRRCI
    | MUL | MULH | MULHSU | MULHU | DIV | DIVU | REM | REMU

  function OpcodeOf(c: Cmd): Opcode {
    match c
    case LUI => OpLui
    case AUIPC => OpAuipc
    case JAL => OpJal
    case JALR => OpJalr
    case BEQ | BNE | BLT | BGE | BLTU | BGEU => OpBranch
    case LB | LH | LW | LBU | LHU => OpLoad
    case SB | SH | SW => OpStore
    case ADDI | SLTI | SLTIU | XORI | ORI | ANDI | SLLI | SRLI | SRAI => OpImm
    case ADD | SUB | SLL | SLT | SLTU | XOR | SRL | SRA | OR | AND => OpReg
    case MUL | MULH | MULHSU | MULHU | DIV | DIVU | REM | REMU => OpReg
    case FENCE => OpMiscMem
    case ECALL | EBREAK | URET | SRET | MRET | WFI => OpSystem
    case CSRRW | CSRRS | CSRRC | CSRRWI | CSRRSI | CSRRCI => OpSystem
  }

  function FormatOf(o: Opcode): Format {
    match o
    case OpReg => FormatR
    case OpStore => FormatS
    case OpBranch => FormatB
    case OpJal => FormatJ
    case OpAuipc | OpLui => FormatU
    case OpLoad | OpJalr | OpImm | OpSystem | OpMiscMem => FormatI
  }

  /** A decoded instruction; fields the format does not use are zero. */
  datatype Inst = Inst(cmd: Cmd, rd: Reg, rs1: Reg, rs2: Reg, imm: Word) {
    function Fmt(): Format { FormatOf(OpcodeOf(cmd)) }

    predicate IsRs1() { Fmt() != FormatU && Fmt() != FormatJ }

    predicate IsRs2() { Fmt() != FormatI && Fmt() != FormatU && Fmt() != FormatJ }

    predicate IsRd() { Fmt() != FormatS && Fmt() != FormatB }

    predicate IsTerminator() {
      cmd == FENCE || OpcodeOf(cmd) == OpBranch || OpcodeOf(cmd) == OpJalr || OpcodeOf(cmd) == OpJal
    }

    /** Whether the command table names a translation function. */
    predicate IsTranslationSupported() {
      match cmd
      case ECALL | EBREAK | URET | SRET | MRET | WFI | FENCE => false
      case CSRRW | CSRRS | CSRRC | CSRRWI | CSRRSI | CSRRCI => false
      case MULHSU | MULHU | DIV | DIVU | REM | REMU => false
      case _ => true
    }

    /** Register r is an operand this instruction reads. */
    predicate Reads(r: Reg) { (IsRs1() && rs1 == r) || (IsRs2() && rs2 == r) }

    /** Register r is the one this instruction writes. */
    predicate Writes(r: Reg) { IsRd() && rd == r }
  }

  /** What the trace builder guarantees: the last instruction, and no other, ends the trace. */
  predicate IsTrace(trace: seq<Inst>) {
    && |trace| > 0
    && trace[|trace| - 1].IsTerminator()
    && forall i :: 0 <= i < |trace| - 1 ==> !trace[i].IsTerminator()
  }
}
