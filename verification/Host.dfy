/** The fragment of x86-64 the translator emits: operands, instructions, encodability and meaning. */
module Host {
  import opened Words
  import opened Guest

  // ----- registers and operands -----

  type HostReg = r: int | 0 <= r < 8

  const EAX: HostReg := 0
  const EDX: HostReg := 1
  const ESI: HostReg := 2
  const ECX: HostReg := 3
  const R8D: HostReg := 4
  const R9D: HostReg := 5
  const R10D: HostReg := 6
  const R11D: HostReg := 7

  /** A host register, a guest register slot or the pc field of the State structure, or an immediate. */
  datatype OperandRep = R(h: HostReg) | Slot(i: nat) | PcField | Imm(v: int) {
    predicate IsReg() { R? }

    predicate IsMem() { Slot? || PcField? }

    predicate IsImm() { Imm? }

    predicate Valid() { Slot? ==> 0 < i < 32 }
  }

  type Operand = o: OperandRep | o.Valid() witness PcField

  // ----- instructions -----

  datatype BinOp = AddB | SubB | AndB | OrB | XorB | ShlB | ShrB | SarB {
    predicate IsShift() { ShlB? || ShrB? || SarB? }
  }

  datatype Cond = CondE | CondNE | CondL | CondGE | CondB | CondAE

  type LabelId = nat

  /** Loads and stores address guest memory through rax plus a displacement. */
  datatype Instr =
    | Mov(dst: Operand, src: Operand)
    | Bin(op: BinOp, dst: Operand, src: Operand)
    | Cmp(dst: Operand, src: Operand)
    | Set(cond: Cond, dst: Operand)
    | Mul(src: Operand)
    | AddMemBase
    | LoadMem(reg: HostReg, size: nat, signed: bool, disp: int)
    | StoreMem(size: nat, disp: int, reg: HostReg)
    | AddExecuted(n: nat)
    | Jcc(cond: Cond, target: LabelId)
    | Jmp(target: LabelId)
    | Bind(target: LabelId)
    | Ret

  /** Operand pairs that have an encoding; the assembler reports an error on the others. */
  predicate Encodable(i: Instr) {
    match i
    case Mov(d, s) => !d.IsImm() && !(d.IsMem() && s.IsMem())
    case Bin(op, d, s) =>
      !d.IsImm() && (if op.IsShift() then s.IsImm() || s == R(ECX) else !(d.IsMem() && s.IsMem()))
    case Cmp(d, s) => !d.IsImm() && !(d.IsMem() && s.IsMem())
    case Set(_, d) => !d.IsImm()
    case Mul(s) => !s.IsImm()
    case LoadMem(_, n, _, _) => IsSize(n)
    case StoreMem(n, _, _) => IsSize(n)
    case _ => true
  }

  /** The result of emit() is ignored, so an instruction without an encoding leaves no code behind. */
  function Emit(i: Instr): seq<Instr> {
    if Encodable(i) then [i] else []
  }

  predicate IsJump(i: Instr) { i.Jcc? || i.Jmp? || i.Ret? }

  /** Code without jumps and labels. */
  predicate Straight(code: seq<Instr>) {
    forall k :: 0 <= k < |code| ==> !IsJump(code[k]) && !code[k].Bind?
  }

  // ----- machine state -----

  /** Flags of the last compare; every other arithmetic instruction leaves them undefined here. */
  datatype Flags = Undefined | Known(zf: bool, sf: bool, cf: bool, of: bool)

  /** `g` is the State structure in host memory, `base` its `mem` pointer, `raxHigh` the upper half of
      rax; `ok` turns false when code reads undefined flags or memory outside the guest's buffer. */
  datatype MachineRep =
    MachineRep(r: seq<Word>, raxHigh: Word, flags: Flags, g: GState, base: nat, ok: bool)

  type Machine = m: MachineRep | |m.r| == 8
    witness MachineRep(seq(8, _ => 0), 0, Undefined, StateRep(seq(32, _ => 0), 0, [], 0), 0, true)

  function Read(o: Operand, m: Machine): Word {
    match o
    case R(h) => m.r[h]
    case Slot(i) => m.g.regs[i]
    case PcField => m.g.pc
    case Imm(v) => Wrap(v)
  }

  /** 32-bit write; a write to eax clears the upper half of rax. */
  function Write(o: Operand, v: Word, m: Machine): Machine {
    match o
    case R(h) => m.(r := m.r[h := v], raxHigh := if h == EAX then 0 else m.raxHigh)
    case Slot(i) => m.(g := m.g.(regs := m.g.regs[i := v]))
    case PcField => m.(g := m.g.(pc := v))
    case Imm(_) => m
  }

  function BinFn(op: BinOp, a: Word, b: Word): Word {
    match op
    case AddB => Add(a, b)
    case SubB => Sub(a, b)
    case AndB => And(a, b)
    case OrB => Or(a, b)
    case XorB => Xor(a, b)
    case ShlB => Shl(a, b % 32)
    case ShrB => Shr(a, b % 32)
    case SarB => Sar(a, b % 32)
  }

  /** Zero, sign, carry and overflow flag of a - b. */
  function CompareFlags(a: Word, b: Word): Flags {
    var d := Signed(a) - Signed(b);
    Known(a == b, Sub(a, b) >= HALF, a < b, !(-0x8000_0000 <= d < 0x8000_0000))
  }

  predicate Holds(c: Cond, f: Flags)
    requires f.Known?
  {
    match c
    case CondE => f.zf
    case CondNE => !f.zf
    case CondL => f.sf != f.of
    case CondGE => f.sf == f.of
    case CondB => f.cf
    case CondAE => !f.cf
  }

  /** Index into the guest's buffer of the 64-bit host address rax + disp. */
  function GuestIndex(m: Machine, disp: int): int {
    (m.raxHigh * WORD + m.r[EAX] + disp) % TWO64 - m.base
  }

  predicate Accessible(m: Machine, disp: int, n: nat) {
    0 <= GuestIndex(m, disp) && GuestIndex(m, disp) + n <= |m.g.mem|
  }

  /** Effect of an instruction that is not a jump. */
  function Exec(i: Instr, m: Machine): Machine {
    match i
    case Mov(d, s) => Write(d, Read(s, m), m)
    case Bin(op, d, s) => Write(d, BinFn(op, Read(d, m), Read(s, m)), m).(flags := Undefined)
    case Cmp(d, s) => m.(flags := CompareFlags(Read(d, m), Read(s, m)))
    case Set(c, d) =>
      if m.flags.Undefined? then m.(ok := false)
      else
        var v := Read(d, m);
        Write(d, v - v % 0x100 + Bool(Holds(c, m.flags)), m)
    case Mul(s) =>
      var p := m.r[EAX] * Read(s, m);
      m.(r := m.r[EAX := Wrap(p)][EDX := UpperHalf(p)], raxHigh := 0, flags := Undefined)
    case AddMemBase =>
      var sum := (m.raxHigh * WORD + m.r[EAX] + m.base) % TWO64;
      m.(r := m.r[EAX := sum % WORD], raxHigh := sum / WORD, flags := Undefined)
    case LoadMem(h, n, signed, disp) =>
      if IsSize(n) && Accessible(m, disp, n)
      then Write(R(h), Extend(LoadBytes(m.g.mem, GuestIndex(m, disp), n), n, signed), m)
      else m.(ok := false)
    case StoreMem(n, disp, h) =>
      if IsSize(n) && Accessible(m, disp, n)
      then m.(g := m.g.(mem := StoreBytes(m.g.mem, GuestIndex(m, disp), n, m.r[h])))
      else m.(ok := false)
    case AddExecuted(n) => m.(g := Count(m.g, n), flags := Undefined)
    case _ => m
  }

  // ----- running code -----

  /** Straight-line execution. */
  function Run(code: seq<Instr>, m: Machine): Machine
    decreases |code|
  {
    if code == [] then m else Run(code[1..], Exec(code[0], m))
  }

  /** Position of the binding of a label. */
  function Target(code: seq<Instr>, l: LabelId): nat
    decreases |code|
  {
    if code == [] || code[0] == Bind(l) then 0 else 1 + Target(code[1..], l)
  }

  /** Control state of the machine: about to execute an instruction, returned, or lost. */
  datatype Control = At(ip: nat, m: Machine) | Returned(m: Machine) | Lost

  function Next(code: seq<Instr>, c: Control): Control {
    match c
    case At(ip, m) =>
      if ip >= |code| || !m.ok then Lost
      else (
        match code[ip]
        case Jcc(cond, l) =>
          if m.flags.Undefined? then Lost
          else if Holds(cond, m.flags) then At(Target(code, l), m)
          else At(ip + 1, m)
        case Jmp(l) => At(Target(code, l), m)
        case Ret => Returned(m)
        case i => At(ip + 1, Exec(i, m))
      )
    case _ => c
  }

  function Steps(code: seq<Instr>, c: Control, n: nat): Control
    decreases n
  {
    if n == 0 then c else Steps(code, Next(code, c), n - 1)
  }

  /** Some number of steps leads from one control state to another. */
  ghost predicate Reaches(code: seq<Instr>, c: Control, d: Control) {
    exists n: nat :: Steps(code, c, n) == d
  }

  // ----- laws -----

  lemma ReachesTrans(code: seq<Instr>, c: Control, d: Control, e: Control)
    requires Reaches(code, c, d) && Reaches(code, d, e)
    ensures Reaches(code, c, e)
  {
    hide Steps;
    var n: nat :| Steps(code, c, n) == d;
    var k: nat :| Steps(code, d, k) == e;
    StepsAdd(code, c, n, k);
    assert Steps(code, c, n + k) == e;
  }

  lemma ReachesNext(code: seq<Instr>, c: Control)
    ensures Reaches(code, c, Next(code, c))
  {
    hide Next;
    assert Steps(code, c, 1) == Steps(code, Next(code, c), 0) == Next(code, c);
  }

  lemma {:induction false} RunAppend(x: seq<Instr>, y: seq<Instr>, m: Machine)
    ensures Run(x + y, m) == Run(y, Run(x, m))
    decreases |x|
  {
    if x == [] {
      assert x + y == y;
    } else {
      assert (x + y)[1..] == x[1..] + y;
      RunAppend(x[1..], y, Exec(x[0], m));
    }
  }

  lemma Run3(x: seq<Instr>, y: seq<Instr>, z: seq<Instr>, m: Machine)
    ensures Run(x + y + z, m) == Run(z, Run(y, Run(x, m)))
  {
    RunAppend(x + y, z, m);
    RunAppend(x, y, m);
  }

  lemma Assoc(x: seq<Instr>, y: seq<Instr>, z: seq<Instr>)
    ensures x + y + z == x + (y + z) && [] + x == x == x + []
  {
  }

  lemma Assoc3(w: seq<Instr>, x: seq<Instr>, y: seq<Instr>, z: seq<Instr>)
    ensures w + x + y + z == w + (x + y + z)
  {
  }

  lemma Assoc4(v: seq<Instr>, w: seq<Instr>, x: seq<Instr>, y: seq<Instr>, z: seq<Instr>)
    ensures v + w + x + y + z == v + (w + x + y + z)
  {
  }

  lemma RunEmit(i: Instr, m: Machine)
    ensures Run(Emit(i), m) == if Encodable(i) then Exec(i, m) else m
  {
  }

  lemma {:induction false} StepsAdd(code: seq<Instr>, c: Control, a: nat, b: nat)
    ensures Steps(code, c, a + b) == Steps(code, Steps(code, c, a), b)
    decreases a
  {
    if a > 0 {
      StepsAdd(code, Next(code, c), a - 1, b);
    }
  }

  /** The jump conditions read from the flags of a compare are the guest's comparisons. */
  lemma ConditionsAfterCompare(a: Word, b: Word)
    ensures var f := CompareFlags(a, b);
      && (Holds(CondE, f) <==> Signed(a) == Signed(b))
      && (Holds(CondNE, f) <==> Signed(a) != Signed(b))
      && (Holds(CondL, f) <==> Signed(a) < Signed(b))
      && (Holds(CondGE, f) <==> Signed(a) >= Signed(b))
      && (Holds(CondB, f) <==> a < b)
      && (Holds(CondAE, f) <==> a >= b)
  {
  }
}
