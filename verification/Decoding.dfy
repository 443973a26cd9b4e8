/** Instruction words: what the decoder makes of them, the standard encoding, and the round trips. */
module Decoding {
  import opened Words
  import opened Isa
  import opened Options

  // ----- the fields of a word, lowest first -----

  datatype FieldsRep = Fields(low: nat, op: nat, rd: nat, f3: nat, rs1: nat, rs2: nat, f7: nat)

  type WordFields = f: FieldsRep |
    f.low < 4 && f.op < 32 && f.rd < 32 && f.f3 < 8 && f.rs1 < 32 && f.rs2 < 32 && f.f7 < 128
    witness Fields(0, 0, 0, 0, 0, 0, 0)

  function Split(w: Word): WordFields {
    var w1 := w / 4;
    var w2 := w1 / 32;
    var w3 := w2 / 32;
    var w4 := w3 / 8;
    var w5 := w4 / 32;
    var w6 := w5 / 32;
    Fields(w % 4, w1 % 32, w2 % 32, w3 % 8, w4 % 32, w5 % 32, w6 % 128)
  }

  function Join(f: WordFields): Word {
    f.low + 4 * (f.op + 32 * (f.rd + 32 * (f.f3 + 8 * (f.rs1 + 32 * (f.rs2 + 32 * f.f7)))))
  }

  lemma SplitJoin(f: WordFields)
    ensures Split(Join(f)) == f
  {
    var w6 := f.f7;
    var w5 := f.rs2 + 32 * w6;
    var w4 := f.rs1 + 32 * w5;
    var w3 := f.f3 + 8 * w4;
    var w2 := f.rd + 32 * w3;
    var w1 := f.op + 32 * w2;
    var w := f.low + 4 * w1;
    assert w == Join(f);
    assert w / 4 == w1 && w1 / 32 == w2 && w2 / 32 == w3 && w3 / 8 == w4 && w4 / 32 == w5 && w5 / 32 == w6;
  }

  lemma JoinSplit(w: Word)
    ensures Join(Split(w)) == w
  {
    var w1 := w / 4;
    var w2 := w1 / 32;
    var w3 := w2 / 32;
    assert w == w % 4 + 4 * w1 && w1 == w1 % 32 + 32 * w2 && w2 == w2 % 32 + 32 * w3;
    JoinTop(w3);
  }

  lemma JoinTop(w3: nat)
    requires w3 < 0x10_0000
    ensures w3 % 8 + 8 * (w3 / 8 % 32 + 32 * (w3 / 8 / 32 % 32 + 32 * (w3 / 8 / 32 / 32 % 128))) == w3
  {
    var w4 := w3 / 8;
    var w5 := w4 / 32;
    assert w3 == w3 % 8 + 8 * w4 && w4 == w4 % 32 + 32 * w5 && w5 == w5 % 32 + 32 * (w5 / 32);
  }

  // ----- the command tables -----

  function CodeOf(o: Opcode): (c: nat)
    ensures c < 32
  {
    match o
    case OpLoad => 0
    case OpStore => 8
    case OpBranch => 24
    case OpJalr => 25
    case OpJal => 27
    case OpImm => 4
    case OpReg => 12
    case OpSystem => 28
    case OpAuipc => 5
    case OpLui => 13
    case OpMiscMem => 3
  }

  function Funct3Of(c: Cmd): (f: nat)
    ensures f < 8
  {
    match c
    case LUI | AUIPC | JAL | JALR | BEQ | LB | SB | ADDI | ADD | SUB | MUL => 0
    case ECALL | EBREAK | URET | SRET | MRET | WFI | FENCE => 0
    case BNE | LH | SH | SLLI | SLL | CSRRW | MULH => 1
    case LW | SW | SLTI | SLT | CSRRS | MULHSU => 2
    case SLTIU | SLTU | CSRRC | MULHU => 3
    case BLT | LBU | XORI | XOR | DIV => 4
    case BGE | LHU | SRLI | SRAI | SRL | SRA | CSRRWI | DIVU => 5
    case BLTU | ORI | OR | CSRRSI | REM => 6
    case BGEU | ANDI | AND | CSRRCI | REMU => 7
  }

  function Funct7Of(c: Cmd): (f: nat)
    ensures f < 128
  {
    match c
    case SUB | SRA => 32
    case MUL | MULH | MULHSU | MULHU | DIV | DIVU | REM | REMU => 1
    case _ => 0
  }

  /** The opcode with a given code. */
  function OpcodeAt(code: nat): (o: Option<Opcode>)
    ensures forall x: Opcode :: o == Some(x) <==> CodeOf(x) == code
  {
    if code == 0 then Some(OpLoad) else if code == 8 then Some(OpStore) else if code == 24 then Some(OpBranch)
    else if code == 25 then Some(OpJalr) else if code == 27 then Some(OpJal) else if code == 4 then Some(OpImm)
    else if code == 12 then Some(OpReg) else if code == 28 then Some(OpSystem) else if code == 5 then Some(OpAuipc)
    else if code == 13 then Some(OpLui) else if code == 3 then Some(OpMiscMem) else None
  }

  /** The command of a row of the tables: where several commands share a row, the last one. */
  function CmdAt(o: Opcode, f3: nat, f7: nat): (r: Option<Cmd>)
  {
    match o
    case OpLui => if f3 == 0 then Some(LUI) else None
    case OpAuipc => if f3 == 0 then Some(AUIPC) else None
    case OpJal => if f3 == 0 then Some(JAL) else None
    case OpJalr => if f3 == 0 then Some(JALR) else None
    case OpBranch =>
      if f3 == 0 then Some(BEQ) else if f3 == 1 then Some(BNE) else if f3 == 4 then Some(BLT)
      else if f3 == 5 then Some(BGE) else if f3 == 6 then Some(BLTU) else if f3 == 7 then Some(BGEU) else None
    case OpLoad =>
      if f3 == 0 then Some(LB) else if f3 == 1 then Some(LH) else if f3 == 2 then Some(LW)
      else if f3 == 4 then Some(LBU) else if f3 == 5 then Some(LHU) else None
    case OpStore => if f3 == 0 then Some(SB) else if f3 == 1 then Some(SH) else if f3 == 2 then Some(SW) else None
    case OpImm =>
      if f3 == 0 then Some(ADDI) else if f3 == 1 then Some(SLLI) else if f3 == 2 then Some(SLTI)
      else if f3 == 3 then Some(SLTIU) else if f3 == 4 then Some(XORI) else if f3 == 5 then Some(SRAI)
      else if f3 == 6 then Some(ORI) else if f3 == 7 then Some(ANDI) else None
    case OpSystem =>
      if f3 == 0 then Some(WFI) else if f3 == 1 then Some(CSRRW) else if f3 == 2 then Some(CSRRS)
      else if f3 == 3 then Some(CSRRC) else if f3 == 5 then Some(CSRRWI) else if f3 == 6 then Some(CSRRSI)
      else if f3 == 7 then Some(CSRRCI) else None
    case OpMiscMem => if f3 == 0 then Some(FENCE) else None
    case OpReg => if f7 == 0 then BaseCmd(f3) else if f7 == 32 then AltCmd(f3) else if f7 == 1 then MulCmd(f3) else None
  }

  function BaseCmd(f3: nat): (r: Option<Cmd>)
    ensures r.Some? ==> OpcodeOf(r.value) == OpReg && Funct3Of(r.value) == f3 && Funct7Of(r.value) == 0
  {
    if f3 == 0 then Some(ADD) else if f3 == 1 then Some(SLL) else if f3 == 2 then Some(SLT)
    else if f3 == 3 then Some(SLTU) else if f3 == 4 then Some(XOR) else if f3 == 5 then Some(SRL)
    else if f3 == 6 then Some(OR) else if f3 == 7 then Some(AND) else None
  }

  function AltCmd(f3: nat): (r: Option<Cmd>)
    ensures r.Some? ==> OpcodeOf(r.value) == OpReg && Funct3Of(r.value) == f3 && Funct7Of(r.value) == 32
  {
    if f3 == 0 then Some(SUB) else if f3 == 5 then Some(SRA) else None
  }

  function MulCmd(f3: nat): (r: Option<Cmd>)
    ensures r.Some? ==> OpcodeOf(r.value) == OpReg && Funct3Of(r.value) == f3 && Funct7Of(r.value) == 1
  {
    if f3 == 0 then Some(MUL) else if f3 == 1 then Some(MULH) else if f3 == 2 then Some(MULHSU)
    else if f3 == 3 then Some(MULHU) else if f3 == 4 then Some(DIV) else if f3 == 5 then Some(DIVU)
    else if f3 == 6 then Some(REM) else if f3 == 7 then Some(REMU) else None
  }

  /** The commands without registers that share one row. */
  predicate IsPlainSystem(c: Cmd) {
    c == ECALL || c == EBREAK || c == URET || c == SRET || c == MRET || c == WFI
  }

  /** The row of every command leads back to it, except that two rows are shared. */
  lemma CmdRoundTrip(c: Cmd)
    ensures CmdAt(OpcodeOf(c), Funct3Of(c), Funct7Of(c)) ==
            Some(RowCmd(c))
  {
    hide CmdAt, RowCmd, Funct3Of, Funct7Of;
    match OpcodeOf(c)
    case OpReg => RegRoundTrip(c);
    case OpImm => ImmRoundTrip(c);
    case OpSystem => SystemRoundTrip(c);
    case OpBranch | OpLoad | OpStore => MemoryRoundTrip(c);
    case OpJal | OpJalr | OpLui | OpAuipc | OpMiscMem => OtherRoundTrip(c);
  }

  lemma RegRoundTrip(c: Cmd)
    requires OpcodeOf(c) == OpReg
    ensures CmdAt(OpReg, Funct3Of(c), Funct7Of(c)) == Some(RowCmd(c))
  {
    hide BaseCmd, AltCmd, MulCmd, Funct3Of, Funct7Of, RowCmd;
    if Funct7Of(c) == 1 { MulRoundTrip(c); } else { BaseRoundTrip(c); }
  }

  lemma MulRoundTrip(c: Cmd)
    requires OpcodeOf(c) == OpReg && Funct7Of(c) == 1
    ensures MulCmd(Funct3Of(c)) == Some(c) && RowCmd(c) == c
  {
  }

  lemma BaseRoundTrip(c: Cmd)
    requires OpcodeOf(c) == OpReg && Funct7Of(c) != 1
    ensures if Funct7Of(c) == 0 then BaseCmd(Funct3Of(c)) == Some(c) else Funct7Of(c) == 32 && AltCmd(Funct3Of(c)) == Some(c)
    ensures RowCmd(c) == c
  {
  }

  lemma ImmRoundTrip(c: Cmd)
    requires OpcodeOf(c) == OpImm
    ensures CmdAt(OpImm, Funct3Of(c), Funct7Of(c)) == Some(RowCmd(c))
  {
  }

  lemma SystemRoundTrip(c: Cmd)
    requires OpcodeOf(c) == OpSystem
    ensures CmdAt(OpSystem, Funct3Of(c), Funct7Of(c)) == Some(RowCmd(c))
  {
  }

  lemma MemoryRoundTrip(c: Cmd)
    requires OpcodeOf(c) in {OpBranch, OpLoad, OpStore}
    ensures CmdAt(OpcodeOf(c), Funct3Of(c), Funct7Of(c)) == Some(RowCmd(c))
  {
    hide Funct7Of, BaseCmd, AltCmd, MulCmd;
    match c
    case BEQ | BNE | BLT | BGE | BLTU | BGEU =>
    case LB | LH | LW | LBU | LHU =>
    case SB | SH | SW =>
  }

  lemma OtherRoundTrip(c: Cmd)
    requires OpcodeOf(c) in {OpJal, OpJalr, OpLui, OpAuipc, OpMiscMem}
    ensures CmdAt(OpcodeOf(c), Funct3Of(c), Funct7Of(c)) == Some(RowCmd(c))
  {
    hide Funct7Of, BaseCmd, AltCmd, MulCmd;
    match c
    case JAL | JALR | LUI | AUIPC | FENCE =>
  }

  function RowCmd(c: Cmd): Cmd {
    if IsPlainSystem(c) then WFI else if c == SRLI then SRAI else c
  }

  lemma CmdAtRow(o: Opcode, f3: nat, f7: nat)
    requires CmdAt(o, f3, f7).Some?
    ensures var c := CmdAt(o, f3, f7).value; OpcodeOf(c) == o && Funct3Of(c) == f3 && (o == OpReg ==> Funct7Of(c) == f7)
  {
    match o
    case OpImm => ImmRow(f3);
    case OpSystem => SystemRow(f3);
    case OpBranch => BranchRow(f3);
    case OpReg | OpLoad | OpStore | OpJal | OpJalr | OpLui | OpAuipc | OpMiscMem =>
  }

  lemma ImmRow(f3: nat)
    requires CmdAt(OpImm, f3, 0).Some?
    ensures var c := CmdAt(OpImm, f3, 0).value; OpcodeOf(c) == OpImm && Funct3Of(c) == f3
  {
  }

  lemma SystemRow(f3: nat)
    requires CmdAt(OpSystem, f3, 0).Some?
    ensures var c := CmdAt(OpSystem, f3, 0).value; OpcodeOf(c) == OpSystem && Funct3Of(c) == f3
  {
  }

  lemma BranchRow(f3: nat)
    requires CmdAt(OpBranch, f3, 0).Some?
    ensures var c := CmdAt(OpBranch, f3, 0).value; OpcodeOf(c) == OpBranch && Funct3Of(c) == f3
  {
  }

  // ----- sign extension -----

  /** Bits above bit n become copies of it. */
  function SignExtend(imm: Word, n: nat): Word
    requires n < 32
  {
    if And(imm, Wrap(Pow2(n))) != 0 then Or(imm, Wrap(0xFFFF_FFFF * Pow2(n))) else imm
  }

  /** The bit test is arithmetic. */
  lemma {:induction false} BitTest(a: nat, n: nat)
    ensures BitAnd(a, Pow2(n)) == a / Pow2(n) % 2 * Pow2(n)
    decreases n
  {
    hide BitAnd, Pow2;
    Pow2Halves(n);
    BitAndStep(a, Pow2(n));
    if n == 0 {
      BitAndStep(a / 2, 0);
    } else {
      var q := Pow2(n - 1);
      BitTest(a / 2, n - 1);
      HalfOfEven(q);
      HalfQuotient(a, q);
      MulAssoc(2, a / (2 * q) % 2, q);
    }
  }

  lemma HalfQuotient(a: nat, q: nat)
    requires q > 0
    ensures a / 2 / q == a / (2 * q)
  {
    var d, r := a / 2 / q, a / 2 % q;
    assert a / 2 == d * q + r;
    MulAssoc(d, 2, q);
    DivMod(a, d, 2 * q, 2 * r + a % 2);
  }

  /** Sign extension of an (n + 1)-bit field. */
  lemma SignExtends(imm: Word, n: nat)
    requires n < 31 && imm < Pow2(n + 1)
    ensures SignExtend(imm, n) == if imm < Pow2(n) then imm else imm + 0x1_0000_0000 - Pow2(n + 1)
  {
    var p := Pow2(n);
    Pow2At32();
    Pow2Mono(n + 1, 32);
    BitTest(imm, n);
    assert Wrap(p) == p;
    if imm < p {
      DivMod(imm, 0, p, imm);
    } else {
      DivMod(imm, 1, p, imm - p);
      SetBitAbove(imm, n);
    }
  }

  lemma SetBitAbove(imm: Word, n: nat)
    requires n < 31 && Pow2(n) <= imm < Pow2(n + 1)
    ensures Or(imm, Wrap(0xFFFF_FFFF * Pow2(n))) == imm + 0x1_0000_0000 - Pow2(n + 1)
  {
    Pow2At32();
    Pow2Mono(n + 1, 32);
    MaskValue(Pow2(n));
    OrSharedBit(imm, n, 32);
  }

  lemma MaskValue(p: nat)
    requires 0 < p < 0x1_0000_0000
    ensures Wrap(0xFFFF_FFFF * p) == 0x1_0000_0000 - p
  {
  }

  /** Or-ing the bits n to m - 1 to a number whose highest bit is n. */
  lemma {:induction false} OrSharedBit(imm: nat, n: nat, m: nat)
    requires n < m && Pow2(n) <= imm < Pow2(n + 1)
    ensures Pow2(n) <= Pow2(m)
    ensures BitOr(imm, Pow2(m) - Pow2(n)) == imm + Pow2(m) - Pow2(n + 1)
  {
    hide BitOr, Pow2;
    Pow2Mono(n, m);
    Pow2Halves(n);
    Pow2Halves(n + 1);
    Pow2Halves(m);
    BitOrStep(imm, Pow2(m) - Pow2(n));
    if n == 0 {
      assert imm == 1;
      BitOrZeroLeft(Pow2(m - 1) - 1);
      HalfOfOdd(Pow2(m - 1));
    } else {
      OrSharedBit(imm / 2, n - 1, m - 1);
      Pow2Mono(n - 1, m - 1);
      HalfOfEven(Pow2(m - 1) - Pow2(n - 1));
    }
  }

  lemma BitOrZeroLeft(b: nat)
    ensures BitOr(0, b) == b
  {
  }

  lemma SignExtend12(u: nat)
    requires u < 4096
    ensures SignExtend(u, 11) == if u < 2048 then u else u + 0xFFFF_F000
  {
    assert Pow2(8) == 256;
    assert Pow2(11) == 2048 && Pow2(12) == 4096;
    SignExtends(u, 11);
  }

  lemma SignExtend20(u: nat)
    requires u < 0x10_0000
    ensures SignExtend(u, 19) == if u < 0x8_0000 then u else u + 0xFFF0_0000
  {
    assert Pow2(10) == 1024;
    Pow2Add(10, 10);
    assert 2 * Pow2(19) == Pow2(20);
    SignExtends(u, 19);
  }

  // ----- decoding -----

  function Imm12(f: WordFields): (u: nat)
    ensures u < 4096
  {
    f.rs2 + 32 * f.f7
  }

  /** The pieces of a branch offset, halved, from where the word keeps them. */
  function BranchField(f: WordFields): (u: nat)
    ensures u < 4096
  {
    f.rd / 2 + 16 * (f.f7 % 64) + 1024 * (f.rd % 2) + 2048 * (f.f7 / 64)
  }

  function UpperField(f: WordFields): (u: nat)
    ensures u < 0x10_0000
  {
    f.f3 + 8 * (f.rs1 + 32 * (f.rs2 + 32 * f.f7))
  }

  /** The pieces of a jump offset, halved. */
  function JumpField(x: nat): (u: nat)
    requires x < 0x10_0000
    ensures u < 0x10_0000
  {
    x / 512 % 1024 + 1024 * (x / 256 % 2) + 2048 * (x % 256) + 0x8_0000 * (x / 0x8_0000)
  }

  function SystemCmd(imm: nat): Option<Cmd> {
    if imm == 0x000 then Some(ECALL) else if imm == 0x001 then Some(EBREAK) else if imm == 0x002 then Some(URET)
    else if imm == 0x102 then Some(SRET) else if imm == 0x302 then Some(MRET) else if imm == 0x105 then Some(WFI)
    else None
  }

  function SystemCode(c: Cmd): (imm: nat)
    requires IsPlainSystem(c)
    ensures imm < 4096 && SystemCmd(imm) == Some(c)
  {
    match c
    case ECALL => 0x000
    case EBREAK => 0x001
    case URET => 0x002
    case SRET => 0x102
    case MRET => 0x302
    case WFI => 0x105
  }

  /** The special cases of format I. */
  function DecodeI(c: Cmd, f: WordFields): Option<Inst> {
    var imm := Imm12(f);
    if c == SLLI && imm / 32 != 0 then None
    else if c == SRLI || c == SRAI then
      if imm / 32 == 0 then Some(Inst(SRLI, f.rd, f.rs1, 0, SignExtend(imm, 11)))
      else if imm / 32 == 32 then Some(Inst(SRAI, f.rd, f.rs1, 0, SignExtend(imm, 11)))
      else None
    else if c == FENCE then
      if imm != 0x0ff || f.rs1 != 0 || f.rd != 0 then None else Some(Inst(FENCE, f.rd, f.rs1, 0, imm))
    else if IsPlainSystem(c) then
      if f.rs1 != 0 || f.rd != 0 || SystemCmd(imm).None? then None
      else Some(Inst(SystemCmd(imm).value, f.rd, f.rs1, 0, imm))
    else Some(Inst(c, f.rd, f.rs1, 0, SignExtend(imm, 11)))
  }

  function DecodeFields(c: Cmd, f: WordFields): Option<Inst> {
    match FormatOf(OpcodeOf(c))
    case FormatR => Some(Inst(c, f.rd, f.rs1, f.rs2, 0))
    case FormatI => DecodeI(c, f)
    case FormatS => Some(Inst(c, 0, f.rs1, f.rs2, SignExtend(f.rd + 32 * f.f7, 11)))
    case FormatB => Some(Inst(c, 0, f.rs1, f.rs2, SignExtend(BranchField(f), 11)))
    case FormatU => Some(Inst(c, f.rd, 0, 0, 4096 * UpperField(f)))
    case FormatJ => Some(Inst(c, f.rd, 0, 0, SignExtend(JumpField(UpperField(f)), 19)))
  }

  /** The row a word selects: formats U and J have no `funct3`, only format R has `funct7`. */
  function RowOf(o: Opcode, f: WordFields): Option<Cmd> {
    match FormatOf(o)
    case FormatR => CmdAt(o, f.f3, f.f7)
    case FormatU | FormatJ => CmdAt(o, 0, 0)
    case FormatI | FormatS | FormatB => CmdAt(o, f.f3, 0)
  }

  /** `decode`: nothing when the source throws. */
  function Decode(w: Word): Option<Inst> {
    var f := Split(w);
    if f.low != 3 || OpcodeAt(f.op).None? then None
    else
      match RowOf(OpcodeAt(f.op).value, f)
      case None => None
      case Some(c) => DecodeFields(c, f)
  }

  // ----- the standard encoding -----

  /** A sign-extended 12-bit immediate. */
  predicate IsShort(imm: Word) {
    imm < 0x800 || imm >= 0xFFFF_F800
  }

  /** A sign-extended 20-bit immediate. */
  predicate IsLong(imm: Word) {
    imm < 0x8_0000 || imm >= 0xFFF8_0000
  }

  predicate IsImmI(c: Cmd, imm: Word) {
    if c == SLLI || c == SRLI then imm < 32
    else if c == SRAI then 0x400 <= imm < 0x420
    else if c == FENCE then imm == 0x0ff
    else if IsPlainSystem(c) then imm == SystemCode(c)
    else IsShort(imm)
  }

  /** The decoded instructions that some word stands for. Branch and jump immediates are half the
      offset; the amount of SRAI keeps the bit that tells it from SRLI. */
  predicate IsEncodable(i: Inst) {
    match i.Fmt()
    case FormatR => i.imm == 0
    case FormatI => i.rs2 == 0 && IsImmI(i.cmd, i.imm) && (i.cmd == FENCE || IsPlainSystem(i.cmd) ==> i.rd == 0 && i.rs1 == 0)
    case FormatS => i.rd == 0 && IsShort(i.imm)
    case FormatB => i.rd == 0 && IsShort(i.imm)
    case FormatU => i.rs1 == 0 && i.rs2 == 0 && i.imm % 4096 == 0
    case FormatJ => i.rs1 == 0 && i.rs2 == 0 && IsLong(i.imm)
  }

  /** The standard word of an instruction: the immediate's bits where figures 2.3 and 2.4 of the
      RISC-V Unprivileged ISA put them. */
  function Encode(i: Inst): Word
    requires IsEncodable(i)
  {
    Join(EncodeFields(i))
  }

  function EncodeFields(i: Inst): WordFields
    requires IsEncodable(i)
  {
    var op, f3, off := CodeOf(OpcodeOf(i.cmd)), Funct3Of(i.cmd), Wrap(2 * i.imm);
    match i.Fmt()
    case FormatR => Fields(3, op, i.rd, f3, i.rs1, i.rs2, Funct7Of(i.cmd))
    case FormatI => Fields(3, op, i.rd, f3, i.rs1, i.imm % 32, i.imm / 32 % 128)
    case FormatS => Fields(3, op, i.imm % 32, f3, i.rs1, i.rs2, i.imm / 32 % 128)
    case FormatB => Fields(3, op, Low5(off), f3, i.rs1, i.rs2, High7(off))
    case FormatU => UpperFields(op, i.rd, i.imm / 4096)
    case FormatJ => UpperFields(op, i.rd, JumpBits(off))
  }

  /** Bits 4:1 and 11 of a branch offset. */
  function Low5(off: Word): (r: nat)
    ensures r < 32
  {
    2 * (off / 2 % 16) + off / 0x800 % 2
  }

  /** Bits 12 and 10:5 of a branch offset. */
  function High7(off: Word): (r: nat)
    ensures r < 128
  {
    64 * (off / 0x1000 % 2) + off / 32 % 64
  }

  /** Bits 20, 10:1, 11 and 19:12 of a jump offset. */
  function JumpBits(off: Word): (r: nat)
    ensures r < 0x10_0000
  {
    0x8_0000 * (off / 0x10_0000 % 2) + 512 * (off / 2 % 1024) + 256 * (off / 0x800 % 2) + off / 0x1000 % 256
  }

  function UpperFields(op: nat, rd: Reg, x: nat): WordFields
    requires op < 32 && x < 0x10_0000
  {
    Fields(3, op, rd, x % 8, x / 8 % 32, x / 256 % 32, x / 8192)
  }

  lemma UpperBack(op: nat, rd: Reg, x: nat)
    requires op < 32 && x < 0x10_0000
    ensures UpperField(UpperFields(op, rd, x)) == x
  {
    hide UpperField, UpperFields;
    var y, z := x / 8, x / 8 / 32;
    QuotientOfQuotient(x, 8, 32);
    QuotientOfQuotient(x, 256, 32);
    UpperDigits(op, rd, x);
    assert x == x % 8 + 8 * y && y == y % 32 + 32 * z && z == z % 32 + 32 * (z / 32);
  }

  lemma UpperDigits(op: nat, rd: Reg, x: nat)
    requires op < 32 && x < 0x10_0000
    ensures UpperField(UpperFields(op, rd, x)) == x % 8 + 8 * (x / 8 % 32 + 32 * (x / 256 % 32 + 32 * (x / 8192)))
  {
  }

  lemma QuotientOfQuotient(x: nat, d: nat, e: nat)
    requires d > 0 && e > 0
    ensures x / d / e == x / (d * e)
  {
    var q, r := x / d, x % d;
    assert q == q / e * e + q % e;
    MulAssoc(q / e, e, d);
    MulMono(q % e, e - 1, d);
    DivMod(x, q / e, d * e, q % e * d + r);
  }

  lemma UpperForth(f: WordFields)
    requires f.low == 3
    ensures UpperFields(f.op, f.rd, UpperField(f)) == f
  {
    var x := UpperField(f);
    var x1 := f.rs1 + 32 * (f.rs2 + 32 * f.f7);
    var x2 := f.rs2 + 32 * f.f7;
    assert x / 8 == x1 && x1 / 32 == x2 && x2 / 32 == f.f7;
  }

  // ----- immediates there and back -----

  /** A digit of a word does not depend on what is added above it. */
  lemma DigitBelow(v: nat, u: nat, k: nat, lo: nat, n: nat)
    requires lo > 0 && n > 0 && v == u + lo * (n * k)
    ensures v / lo % n == u / lo % n
  {
    DivMod(v, u / lo + n * k, lo, u % lo);
    var q := u / lo;
    DivMod(q + n * k, q / n + k, n, q % n);
  }

  lemma BranchDigits(v: nat, u: nat, k: nat)
    requires u < 4096 && v == u + 4096 * k
    ensures v % 16 == u % 16 && v / 16 % 64 == u / 16 % 64 && v / 1024 % 2 == u / 1024 % 2 && v / 2048 % 2 == u / 2048
  {
    DigitBelow(v, u, 256 * k, 1, 16);
    DigitBelow(v, u, 4 * k, 16, 64);
    DigitBelow(v, u, 2 * k, 1024, 2);
    DigitBelow(v, u, k, 2048, 2);
  }

  lemma BranchSum(u: nat, a: nat, b: nat, c: nat, d: nat)
    requires a < 16 && b < 64 && c < 2 && d < 2
    ensures u == a + 16 * b + 1024 * c + 2048 * d ==> u % 16 == a && u / 16 % 64 == b && u / 1024 % 2 == c && u / 2048 == d
    ensures u < 4096 && u % 16 == a && u / 16 % 64 == b && u / 1024 % 2 == c && u / 2048 == d ==>
              u == a + 16 * b + 1024 * c + 2048 * d
  {
    if u == a + 16 * b + 1024 * c + 2048 * d {
      DivMod(u, b + 64 * (c + 2 * d), 16, a);
      DivMod(b + 64 * (c + 2 * d), c + 2 * d, 64, b);
      DivMod(u, c + 2 * d, 1024, a + 16 * b);
      DivMod(c + 2 * d, d, 2, c);
      DivMod(u, d, 2048, a + 16 * b + 1024 * c);
    }
    BranchWhole(u);
  }

  lemma BranchWhole(u: nat)
    ensures u == u % 16 + 16 * (u / 16 % 64) + 1024 * (u / 1024 % 2) + 2048 * (u / 2048)
  {
    var x, y := u / 16, u / 1024;
    assert u / 1024 == x / 64 && u / 2048 == y / 2;
    assert u == u % 16 + 16 * x && x == x % 64 + 64 * (x / 64) && y == y % 2 + 2 * (y / 2);
  }

  /** The offset of a short immediate, by digits of its 12-bit field. */
  lemma ShortOffset(imm: Word, u: nat)
    requires u < 4096 && imm == if u < 2048 then u else u + 0xFFFF_F000
    ensures imm % 4096 == u && IsShort(imm)
    ensures var off := Wrap(2 * imm);
            && Low5(off) == 2 * (u % 16) + u / 1024 % 2 && High7(off) == 64 * (u / 2048) + u / 16 % 64
  {
    hide Wrap, Low5, High7;
    var k := if u < 2048 then 0 else 0x7_FFFF;
    var v := u + 4096 * k;
    ShortDoubled(imm, u, k);
    BranchDigits(v, u, k);
    DoubledDigits(v, u);
  }

  lemma ShortDoubled(imm: Word, u: nat, k: nat)
    requires u < 4096 && imm == (if u < 2048 then u else u + 0xFFFF_F000) && k == if u < 2048 then 0 else 0x7_FFFF
    ensures Wrap(2 * imm) == 2 * (u + 4096 * k) && imm % 4096 == u
  {
  }

  lemma DoubledDigits(v: nat, u: nat)
    requires 2 * v < 0x1_0000_0000 && u < 4096
    requires v % 16 == u % 16 && v / 16 % 64 == u / 16 % 64 && v / 1024 % 2 == u / 1024 % 2 && v / 2048 % 2 == u / 2048
    ensures Low5(2 * v) == 2 * (u % 16) + u / 1024 % 2 && High7(2 * v) == 64 * (u / 2048) + u / 16 % 64
  {
    HalfQuotient(2 * v, 1024);
    HalfQuotient(2 * v, 16);
    HalfQuotient(2 * v, 2048);
    assert 2 * v / 2 == v;
  }

  lemma ShortDigitsOf(imm: Word, u: nat, k: nat)
    requires u < 4096 && imm == u + 4096 * k
    ensures u == imm % 32 + 32 * (imm / 32 % 128)
  {
    DigitBelow(imm, u, 128 * k, 1, 32);
    DigitBelow(imm, u, k, 32, 128);
  }

  lemma ShortField(imm: Word) returns (u: nat)
    requires IsShort(imm)
    ensures u < 4096 && u == imm % 32 + 32 * (imm / 32 % 128)
    ensures imm == (if u < 2048 then u else u + 0xFFFF_F000) && SignExtend(u, 11) == imm
  {
    hide SignExtend;
    u := if imm < 0x800 then imm else imm - 0xFFFF_F000;
    ShortDigitsOf(imm, u, if imm < 0x800 then 0 else 0xF_FFFF);
    SignExtend12(u);
  }

  lemma JumpDigits(v: nat, u: nat, k: nat)
    requires u < 0x10_0000 && v == u + 0x10_0000 * k
    ensures v % 1024 == u % 1024 && v / 1024 % 2 == u / 1024 % 2
    ensures v / 2048 % 256 == u / 2048 % 256 && v / 0x8_0000 % 2 == u / 0x8_0000
  {
    DigitBelow(v, u, 1024 * k, 1, 1024);
    DigitBelow(v, u, 512 * k, 1024, 2);
    DigitBelow(v, u, 2 * k, 2048, 256);
    DigitBelow(v, u, k, 0x8_0000, 2);
  }

  lemma JumpSum(x: nat, s: nat, a: nat, b: nat, c: nat)
    requires s < 2 && a < 1024 && b < 2 && c < 256
    ensures x == 0x8_0000 * s + 512 * a + 256 * b + c ==>
              x / 0x8_0000 == s && x / 512 % 1024 == a && x / 256 % 2 == b && x % 256 == c
  {
    if x == 0x8_0000 * s + 512 * a + 256 * b + c {
      assert x / 256 == 2048 * s + 2 * a + b;
      assert x / 512 == 1024 * s + a;
      assert x / 0x8_0000 == s;
    }
  }

  lemma JumpBack(u: nat)
    requires u < 0x10_0000
    ensures u == u % 1024 + 1024 * (u / 1024 % 2) + 2048 * (u / 2048 % 256) + 0x8_0000 * (u / 0x8_0000)
  {
    var x, y := u / 1024, u / 2048;
    QuotientOfQuotient(u, 1024, 2);
    QuotientOfQuotient(u, 2048, 256);
    assert u == u % 1024 + 1024 * x && x == x % 2 + 2 * y && y == y % 256 + 256 * (y / 256);
  }

  lemma LongOffset(imm: Word, u: nat)
    requires u < 0x10_0000 && imm == if u < 0x8_0000 then u else u + 0xFFF0_0000
    ensures IsLong(imm)
    ensures JumpBits(Wrap(2 * imm)) == 0x8_0000 * (u / 0x8_0000) + 512 * (u % 1024) + 256 * (u / 1024 % 2) + u / 2048 % 256
  {
    var off := Wrap(2 * imm);
    var k := if u < 0x8_0000 then 0 else 0x7FF;
    var v := off / 2;
    assert off == 2 * (u + 0x10_0000 * k);
    JumpDigits(v, u, k);
    HalfQuotient(off, 1024);
    HalfQuotient(off, 2048);
    HalfQuotient(off, 0x8_0000);
  }

  lemma LongBack(imm: Word, u: nat)
    requires u < 0x10_0000 && imm == if u < 0x8_0000 then u else u + 0xFFF0_0000
    ensures JumpField(JumpBits(Wrap(2 * imm))) == u
  {
    hide JumpBits;
    LongOffset(imm, u);
    JumpSum(JumpBits(Wrap(2 * imm)), u / 0x8_0000, u % 1024, u / 1024 % 2, u / 2048 % 256);
    JumpBack(u);
  }

  lemma JumpForth(x: nat)
    requires x < 0x10_0000
    ensures var u := JumpField(x);
            x == 0x8_0000 * (u / 0x8_0000) + 512 * (u % 1024) + 256 * (u / 1024 % 2) + u / 2048 % 256
  {
    var s, a, b, c := x / 0x8_0000, x / 512 % 1024, x / 256 % 2, x % 256;
    JumpParts(x);
    JumpFieldDigits(JumpField(x), s, a, b, c);
  }

  lemma JumpParts(x: nat)
    requires x < 0x10_0000
    ensures x == 0x8_0000 * (x / 0x8_0000) + 512 * (x / 512 % 1024) + 256 * (x / 256 % 2) + x % 256
  {
    assert x / 256 == x / 256 % 2 + 2 * (x / 512);
    assert x / 512 == x / 512 % 1024 + 1024 * (x / 0x8_0000);
  }

  lemma JumpFieldDigits(u: nat, s: nat, a: nat, b: nat, c: nat)
    requires s < 2 && a < 1024 && b < 2 && c < 256 && u == a + 1024 * b + 2048 * c + 0x8_0000 * s
    ensures u % 1024 == a && u / 1024 % 2 == b && u / 2048 % 256 == c && u / 0x8_0000 == s
  {
    assert u / 1024 == b + 2 * c + 512 * s;
    assert u / 2048 == c + 256 * s;
  }

  // ----- the round trips -----

  /** The fields of the standard word select the row of the command. */
  lemma RowBack(i: Inst)
    requires IsEncodable(i)
    ensures var f := EncodeFields(i);
            f.low == 3 && OpcodeAt(f.op) == Some(OpcodeOf(i.cmd)) && RowOf(OpcodeOf(i.cmd), f) == Some(RowCmd(i.cmd))
  {
    hide CmdAt, RowCmd, UpperFields, IsImmI, Low5, High7, JumpBits;
    CmdRoundTrip(i.cmd);
    Funct7Unused(i.cmd);
    UpperOpcode(CodeOf(OpcodeOf(i.cmd)), i.rd);
  }

  lemma UpperOpcode(op: nat, rd: Reg)
    requires op < 32
    ensures forall x :: 0 <= x < 0x10_0000 ==> UpperFields(op, rd, x).low == 3 && UpperFields(op, rd, x).op == op
  {
  }

  lemma Funct7Unused(c: Cmd)
    ensures FormatOf(OpcodeOf(c)) != FormatR ==> Funct7Of(c) == 0
    ensures FormatOf(OpcodeOf(c)) in {FormatU, FormatJ} ==> Funct3Of(c) == 0
  {
  }

  lemma ShiftBack(i: Inst, f: WordFields)
    requires i.cmd in {SLLI, SRLI, SRAI} && i.rs2 == 0 && IsImmI(i.cmd, i.imm)
    requires f == Fields(3, 4, i.rd, Funct3Of(i.cmd), i.rs1, i.imm % 32, i.imm / 32 % 128)
    ensures DecodeI(RowCmd(i.cmd), f) == Some(i)
  {
    hide SignExtend;
    SignExtend12(i.imm);
    assert Imm12(f) == i.imm;
  }

  lemma SystemBack(i: Inst, f: WordFields)
    requires (i.cmd == FENCE || IsPlainSystem(i.cmd)) && i.rd == 0 && i.rs1 == 0 && i.rs2 == 0 && IsImmI(i.cmd, i.imm)
    requires f.rd == 0 && f.rs1 == 0 && f.rs2 == i.imm % 32 && f.f7 == i.imm / 32 % 128
    ensures DecodeI(RowCmd(i.cmd), f) == Some(i)
  {
    hide SignExtend, SystemCmd, Imm12, OpcodeOf, Funct3Of;
    SystemImmediate(i, f);
  }

  lemma SystemImmediate(i: Inst, f: WordFields)
    requires (i.cmd == FENCE || IsPlainSystem(i.cmd)) && IsImmI(i.cmd, i.imm)
    requires f.rs2 == i.imm % 32 && f.f7 == i.imm / 32 % 128
    ensures Imm12(f) == i.imm && (i.cmd == FENCE ==> i.imm == 0xff) && (IsPlainSystem(i.cmd) ==> SystemCmd(i.imm) == Some(i.cmd))
  {
    assert i.imm < 4096;
    DivMod(i.imm / 32, 0, 128, i.imm / 32);
  }

  lemma OtherBack(i: Inst, f: WordFields)
    requires i.cmd !in {SLLI, SRLI, SRAI, FENCE} && !IsPlainSystem(i.cmd) && i.rs2 == 0 && IsShort(i.imm)
    requires f.rd == i.rd && f.rs1 == i.rs1 && f.rs2 == i.imm % 32 && f.f7 == i.imm / 32 % 128
    ensures DecodeI(RowCmd(i.cmd), f) == Some(i)
  {
    hide SignExtend, SystemCmd;
    var u := ShortField(i.imm);
    assert Imm12(f) == u;
  }

  lemma ImmIBack(i: Inst, f: WordFields)
    requires IsEncodable(i) && i.Fmt() == FormatI && f == EncodeFields(i)
    ensures DecodeI(RowCmd(i.cmd), f) == Some(i)
  {
    hide SignExtend, SystemCmd, DecodeI, RowCmd, CodeOf, Funct3Of;
    if i.cmd in {SLLI, SRLI, SRAI} {
      ImmOpcode(i.cmd);
      ShiftBack(i, f);
    } else if i.cmd == FENCE || IsPlainSystem(i.cmd) {
      SystemBack(i, f);
    } else {
      OtherBack(i, f);
    }
  }

  lemma ImmOpcode(c: Cmd)
    requires c in {SLLI, SRLI, SRAI}
    ensures CodeOf(OpcodeOf(c)) == 4
  {
  }

  lemma BranchJoin(a: nat, b: nat, c: nat, d: nat, low: nat, high: nat)
    requires b < 64 && c < 2 && low == 2 * a + c && high == 64 * d + b
    ensures low / 2 == a && low % 2 == c && high % 64 == b && high / 64 == d
  {
  }

  lemma BranchBack(imm: Word, f: WordFields)
    requires IsShort(imm) && f.rd == Low5(Wrap(2 * imm)) && f.f7 == High7(Wrap(2 * imm))
    ensures SignExtend(BranchField(f), 11) == imm
  {
    hide SignExtend, Low5, High7, Wrap, IsShort;
    var u := ShortField(imm);
    ShortOffset(imm, u);
    BranchJoin(u % 16, u / 16 % 64, u / 1024 % 2, u / 2048, f.rd, f.f7);
    BranchSum(u, u % 16, u / 16 % 64, u / 1024 % 2, u / 2048);
  }

  lemma JumpImmBack(op: nat, rd: Reg, imm: Word)
    requires IsLong(imm) && op < 32
    ensures SignExtend(JumpField(UpperField(UpperFields(op, rd, JumpBits(Wrap(2 * imm))))), 19) == imm
  {
    hide SignExtend, JumpField, JumpBits, UpperField, UpperFields;
    var u := LongField(imm);
    LongBack(imm, u);
    UpperBack(op, rd, JumpBits(Wrap(2 * imm)));
  }

  lemma UpperImmBack(op: nat, rd: Reg, imm: Word)
    requires op < 32 && imm % 4096 == 0
    ensures var f := UpperFields(op, rd, imm / 4096); f.rd == rd && 4096 * UpperField(f) == imm
  {
    UpperBack(op, rd, imm / 4096);
  }

  lemma UpperRd(op: nat, rd: Reg, x: nat)
    requires op < 32 && x < 0x10_0000
    ensures UpperFields(op, rd, x).rd == rd
  {
  }

  lemma StoreImmBack(imm: Word)
    requires IsShort(imm)
    ensures SignExtend(imm % 32 + 32 * (imm / 32 % 128), 11) == imm
  {
    var u := ShortField(imm);
  }

  lemma FieldsBack(i: Inst)
    requires IsEncodable(i)
    ensures DecodeFields(RowCmd(i.cmd), EncodeFields(i)) == Some(i)
  {
    hide CmdAt, SignExtend, DecodeI, BranchField, JumpField, UpperField, UpperFields, JumpBits, Low5, High7, IsImmI,
      SystemCode, CodeOf, Funct3Of, Funct7Of, RowCmd, OpcodeOf, IsShort, IsLong, Wrap;
    RowFormat(i.cmd);
    var f, op := EncodeFields(i), CodeOf(OpcodeOf(i.cmd));
    match i.Fmt()
    case FormatR =>
    case FormatI => ImmIBack(i, f);
    case FormatS => StoreImmBack(i.imm);
    case FormatB => BranchBack(i.imm, f);
    case FormatU => UpperImmBack(op, i.rd, i.imm);
    case FormatJ =>
      JumpImmBack(op, i.rd, i.imm);
      UpperRd(op, i.rd, JumpBits(Wrap(2 * i.imm)));
  }

  /** The row command has the format of the command, and is it outside format I. */
  lemma RowFormat(c: Cmd)
    ensures FormatOf(OpcodeOf(RowCmd(c))) == FormatOf(OpcodeOf(c))
    ensures FormatOf(OpcodeOf(c)) != FormatI ==> RowCmd(c) == c
  {
  }

  lemma LongField(imm: Word) returns (u: nat)
    requires IsLong(imm)
    ensures u < 0x10_0000 && imm == (if u < 0x8_0000 then u else u + 0xFFF0_0000) && SignExtend(u, 19) == imm
  {
    u := if imm < 0x8_0000 then imm else imm - 0xFFF0_0000;
    SignExtend20(u);
  }

  /** Decoding the standard encoding of an instruction gives it back. */
  lemma DecodeEncode(i: Inst)
    requires IsEncodable(i)
    ensures Decode(Encode(i)) == Some(i)
  {
    hide Split, Join, EncodeFields, DecodeFields, RowOf, RowCmd, OpcodeAt, IsEncodable;
    SplitJoin(EncodeFields(i));
    RowBack(i);
    FieldsBack(i);
  }

  /** What a decoded instruction of format I says about its word. */
  predicate ImmFields(c: Cmd, f: WordFields, i: Inst) {
    && i.Fmt() == FormatI && i.rs2 == 0 && IsImmI(i.cmd, i.imm)
    && OpcodeOf(i.cmd) == OpcodeOf(c) && Funct3Of(i.cmd) == Funct3Of(c)
    && (i.cmd == FENCE || IsPlainSystem(i.cmd) ==> i.rd == 0 && i.rs1 == 0)
    && f.rd == i.rd && f.rs1 == i.rs1 && f.rs2 == i.imm % 32 && f.f7 == i.imm / 32 % 128
  }

  lemma ShiftForth(c: Cmd, f: WordFields, i: Inst)
    requires c in {SLLI, SRAI} && DecodeI(c, f) == Some(i)
    ensures ImmFields(c, f, i)
  {
    hide SignExtend;
    SignExtend12(Imm12(f));
  }

  lemma SystemForth(c: Cmd, f: WordFields, i: Inst)
    requires c in {FENCE, WFI} && DecodeI(c, f) == Some(i)
    ensures ImmFields(c, f, i)
  {
    hide SignExtend, OpcodeOf, Funct3Of;
    assert i.imm == Imm12(f);
    SystemCmds(c);
    DivMod(Imm12(f), f.f7, 32, f.rs2);
    DivMod(f.f7, 0, 128, f.f7);
  }

  lemma SystemCmds(c: Cmd)
    requires c in {FENCE, WFI}
    ensures OpcodeOf(c) == if c == FENCE then OpMiscMem else OpSystem
    ensures forall d: Cmd :: IsPlainSystem(d) ==> OpcodeOf(d) == OpSystem && Funct3Of(d) == Funct3Of(WFI)
  {
  }

  lemma OtherForth(c: Cmd, f: WordFields, i: Inst)
    requires FormatOf(OpcodeOf(c)) == FormatI && RowCmd(c) == c && c !in {SLLI, SRAI, FENCE, WFI} && DecodeI(c, f) == Some(i)
    ensures ImmFields(c, f, i)
  {
    hide SignExtend, Funct3Of;
    ShortForth(f, SignExtend(Imm12(f), 11));
  }

  lemma ShortForth(f: WordFields, imm: Word)
    requires imm == SignExtend(Imm12(f), 11)
    ensures IsShort(imm) && f.rs2 == imm % 32 && f.f7 == imm / 32 % 128
  {
    hide SignExtend;
    SignExtend12(Imm12(f));
    ShortDigits(Imm12(f));
    DivMod(Imm12(f), f.f7, 32, f.rs2);
    DivMod(f.f7, 0, 128, f.f7);
  }

  lemma ImmIForth(c: Cmd, f: WordFields, i: Inst)
    requires FormatOf(OpcodeOf(c)) == FormatI && RowCmd(c) == c && DecodeI(c, f) == Some(i)
    ensures ImmFields(c, f, i)
  {
    hide DecodeI, ImmFields, RowCmd, OpcodeOf;
    if c in {SLLI, SRAI} { ShiftForth(c, f, i); }
    else if c in {FENCE, WFI} { SystemForth(c, f, i); }
    else { OtherForth(c, f, i); }
  }

  lemma ShortDigits(u: nat)
    requires u < 4096
    ensures u % 32 + 32 * (u / 32 % 128) == u
    ensures (u + 0xFFFF_F000) % 32 == u % 32 && (u + 0xFFFF_F000) / 32 % 128 == u / 32 % 128
  {
  }

  lemma StoreImmForth(f: WordFields, imm: Word)
    requires imm == SignExtend(f.rd + 32 * f.f7, 11)
    ensures IsShort(imm) && imm % 32 == f.rd && imm / 32 % 128 == f.f7
  {
    hide SignExtend;
    var u := f.rd + 32 * f.f7;
    SignExtend12(u);
    ShortDigits(u);
    DivMod(u, f.f7, 32, f.rd);
    DivMod(f.f7, 0, 128, f.f7);
  }

  lemma BranchForth(f: WordFields, imm: Word)
    requires imm == SignExtend(BranchField(f), 11)
    ensures IsShort(imm) && Low5(Wrap(2 * imm)) == f.rd && High7(Wrap(2 * imm)) == f.f7
  {
    hide SignExtend, Low5, High7, Wrap;
    var u := BranchField(f);
    SignExtend12(u);
    ShortOffset(imm, u);
    BranchSum(u, f.rd / 2, f.f7 % 64, f.rd % 2, f.f7 / 64);
  }

  lemma UpperImmForth(f: WordFields, imm: Word)
    requires f.low == 3 && imm == 4096 * UpperField(f)
    ensures imm % 4096 == 0 && UpperFields(f.op, f.rd, imm / 4096) == f
  {
    hide UpperFields;
    UpperForth(f);
  }

  lemma JumpImmForth(f: WordFields, imm: Word)
    requires f.low == 3 && imm == SignExtend(JumpField(UpperField(f)), 19)
    ensures IsLong(imm) && UpperFields(f.op, f.rd, JumpBits(Wrap(2 * imm))) == f
  {
    hide SignExtend, JumpField, JumpBits, UpperField, UpperFields, Wrap;
    var x := UpperField(f);
    var u := JumpField(x);
    SignExtend20(u);
    JumpForth(x);
    LongOffset(imm, u);
    UpperForth(f);
  }

  /** What the row of a word says about its fields. */
  lemma RowForth(f: WordFields, c: Cmd)
    requires OpcodeAt(f.op).Some? && RowOf(OpcodeAt(f.op).value, f) == Some(c)
    ensures CodeOf(OpcodeOf(c)) == f.op && RowCmd(c) == c
    ensures FormatOf(OpcodeOf(c)) in {FormatU, FormatJ} || Funct3Of(c) == f.f3
    ensures FormatOf(OpcodeOf(c)) == FormatR ==> Funct7Of(c) == f.f7
  {
    hide CmdAt, CodeOf, Funct3Of, Funct7Of, RowCmd, OpcodeOf, OpcodeAt;
    var o := OpcodeAt(f.op).value;
    match FormatOf(o)
    case FormatR => RowFacts(o, f.f3, f.f7);
    case FormatU | FormatJ => RowFacts(o, 0, 0);
    case FormatI | FormatS | FormatB => RowFacts(o, f.f3, 0);
  }

  lemma RowFacts(o: Opcode, f3: nat, f7: nat)
    requires CmdAt(o, f3, f7).Some?
    ensures var c := CmdAt(o, f3, f7).value;
            OpcodeOf(c) == o && Funct3Of(c) == f3 && (FormatOf(o) == FormatR ==> Funct7Of(c) == f7) && RowCmd(c) == c
  {
    hide Funct7Of, Funct3Of;
    CmdAtRow(o, f3, f7);
    OwnRow(o, f3, f7);
  }

  /** The first commands of the shared rows are never looked up. */
  lemma OwnRow(o: Opcode, f3: nat, f7: nat)
    requires CmdAt(o, f3, f7).Some?
    ensures RowCmd(CmdAt(o, f3, f7).value) == CmdAt(o, f3, f7).value
  {
  }

  lemma FieldsForth(c: Cmd, f: WordFields, i: Inst)
    requires f.low == 3 && CodeOf(OpcodeOf(c)) == f.op && RowCmd(c) == c
    requires FormatOf(OpcodeOf(c)) in {FormatU, FormatJ} || Funct3Of(c) == f.f3
    requires FormatOf(OpcodeOf(c)) == FormatR ==> Funct7Of(c) == f.f7
    requires DecodeFields(c, f) == Some(i)
    ensures IsEncodable(i) && EncodeFields(i) == f
  {
    hide CmdAt, SignExtend, DecodeI, BranchField, JumpField, UpperField, UpperFields, JumpBits, Low5, High7, IsImmI,
      SystemCode, CodeOf, Funct3Of, Funct7Of, RowCmd, OpcodeOf, IsShort, IsLong, Wrap;
    match FormatOf(OpcodeOf(c))
    case FormatR =>
    case FormatI => ImmIForth(c, f, i);
    case FormatS => StoreImmForth(f, i.imm);
    case FormatB => BranchForth(f, i.imm);
    case FormatU => UpperImmForth(f, i.imm);
    case FormatJ => JumpImmForth(f, i.imm);
  }

  /** An accepted word is the standard encoding of what it decodes to. */
  lemma EncodeDecode(w: Word, i: Inst)
    requires Decode(w) == Some(i)
    ensures IsEncodable(i) && Encode(i) == w
  {
    hide Split, Join, EncodeFields, DecodeFields, RowOf, RowCmd, OpcodeAt, IsEncodable, CodeOf, OpcodeOf, FormatOf,
      Funct3Of, Funct7Of;
    var f := Split(w);
    var c := RowOf(OpcodeAt(f.op).value, f).value;
    RowForth(f, c);
    FieldsForth(c, f, i);
    JoinSplit(w);
  }

  /** Different accepted words are different instructions. */
  lemma DecodeInjective(w: Word, x: Word)
    requires Decode(w).Some? && Decode(w) == Decode(x)
    ensures w == x
  {
    hide Decode, Encode;
    EncodeDecode(w, Decode(w).value);
    EncodeDecode(x, Decode(x).value);
  }

  /** The amount a decoded shift instruction shifts by, modulo 32, is its 5-bit field. */
  lemma ShiftAmounts(w: Word, i: Inst)
    requires Decode(w) == Some(i) && i.cmd in {SLLI, SRLI, SRAI}
    ensures i.imm % 32 == Split(w).rs2
    ensures i.cmd == SRAI <==> i.imm / 32 == 32
  {
    hide Split, Join, CmdAt, OpcodeAt, RowCmd, SignExtend, CodeOf;
    EncodeDecode(w, i);
    SplitJoin(EncodeFields(i));
  }
}
