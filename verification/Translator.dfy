/** The translator object: it fills the assembler buffer while it updates the register mapping. */
module Translator {
  import opened Words
  import opened Options
  import opened Isa
  import opened Guest
  import opened Host
  import opened Alloc
  import opened Templates
  import opened Compiler

  class Translator {
    const regMapping: array<Operand>
    var regPool: seq<HostReg>
    var liveness: seq<set<Reg>>
    var curInst: nat
    var code: seq<Instr>
    /** The finished function; none when an instruction has no translation. */
    var func: Option<seq<Instr>>

    ghost predicate Valid()
      reads this
    {
      regMapping.Length == 32
    }

    ghost function Mapping(): Allocation
      reads this, regMapping
      requires Valid()
    {
      AllocationRep.Allocation(regMapping[..], regPool)
    }

    // ----- allocation -----

    method CalcLiveness(trace: seq<Inst>)
      modifies this`liveness
      ensures |liveness| == |trace| && forall i :: 0 <= i < |trace| ==> liveness[i] == LiveAfter(trace, i)
    {
      hide LiveAfter, LiveBefore;
      liveness := seq(|trace|, _ => {});
      var cur: set<Reg> := {};
      var i := |trace| - 1;
      LiveStep(trace, |trace|);
      while i >= 0
        invariant -1 <= i < |trace| == |liveness|
        invariant i >= 0 ==> cur == LiveAfter(trace, i)
        invariant forall k :: i < k < |trace| ==> liveness[k] == LiveAfter(trace, k)
      {
        liveness := liveness[i := cur];
        cur := Backwards(trace[i], cur);
        LiveStep(trace, i);
        i := i - 1;
      }
    }

    method EmitInstr(i: Instr)
      modifies this`code
      ensures code == old(code) + Emit(i)
    {
      if Encodable(i) {
        code := code + [i];
      }
    }

    method AllocateReg(r: Reg, load: bool)
      requires Valid() && r != 0
      modifies this`code, this`regPool, regMapping
      ensures var c := Allocate(old(Mapping()), r, load);
        Mapping() == c.a && code == old(code) + c.code
      ensures if old(regMapping[r]).R? || old(regPool) == []
              then regMapping[..] == old(regMapping[..]) && regPool == old(regPool) && code == old(code)
              else
                && regMapping[..] == old(regMapping[..])[r := R(old(regPool)[0])] && regPool == old(regPool)[1..]
                && code == old(code) + if load then [Mov(regMapping[r], Slot(r))] else []
    {
      if regMapping[r].IsReg() || regPool == [] {
        return;
      }
      var h := regPool[0];
      regMapping[r] := R(h);
      regPool := regPool[1..];
      if load {
        EmitInstr(Mov(regMapping[r], Slot(r)));
      }
    }

    method DeallocateReg(r: Reg)
      requires Valid() && r != 0
      modifies this`code, this`regPool, regMapping
      ensures var c := Deallocate(old(Mapping()), r);
        Mapping() == c.a && code == old(code) + c.code
      ensures if !old(regMapping[r]).R?
              then regMapping[..] == old(regMapping[..]) && regPool == old(regPool) && code == old(code)
              else
                && regMapping[..] == old(regMapping[..])[r := Slot(r)] && regPool == old(regPool) + [old(regMapping[r]).h]
                && code == old(code) + [Mov(Slot(r), old(regMapping[r]))]
    {
      if !regMapping[r].IsReg() {
        return;
      }
      EmitInstr(Mov(Slot(r), regMapping[r]));
      regPool := regPool + [regMapping[r].h];
      regMapping[r] := Slot(r);
    }

    method DeallocateAllRegs()
      requires Valid()
      modifies this`code, this`regPool, regMapping
      ensures var c := DeallocateFrom(old(Mapping()), 1);
        Mapping() == c.a && code == old(code) + c.code
    {
      hide Deallocate;
      ghost var all := DeallocateFrom(Mapping(), 1);
      var i := 1;
      while i < 32
        invariant 1 <= i <= 32
        invariant all.a == DeallocateFrom(Mapping(), i).a
        invariant old(code) + all.code == code + DeallocateFrom(Mapping(), i).code
      {
        ghost var a, c := Mapping(), code;
        DeallocateReg(i);
        Assoc(c, Deallocate(a, i).code, DeallocateFrom(Mapping(), i + 1).code);
        i := i + 1;
      }
      Assoc(code, [], []);
    }

    function GetReg(r: Reg): (o: Operand)
      reads this, regMapping
      requires Valid()
      ensures o == RegOpnd(Mapping(), r)
    {
      if r != 0 then regMapping[r] else Imm(0)
    }

    // ----- shared templates -----

    method TranslateMove(d: Operand, s: Operand)
      modifies this`code
      ensures code == old(code) + Move(d, s)
    {
      if d.IsReg() && s == Imm(0) {
        EmitInstr(Bin(XorB, d, d));
      } else {
        EmitInstr(Mov(d, s));
      }
    }

    method TranslateImmType(d: Operand, s: Operand, imm: Word, op: BinOp)
      modifies this`code
      ensures code == old(code) + ImmType(d, s, imm, op)
    {
      hide Move, Emit;
      if d.IsImm() {
        return;
      }
      if d != s {
        if d.IsReg() || s.IsReg() {
          TranslateMove(d, s);
        } else {
          TranslateMove(R(EAX), s);
          TranslateMove(d, R(EAX));
          Assoc(old(code), Move(R(EAX), s), Move(d, R(EAX)));
        }
      }
      ghost var front := if d == s then [] else if d.IsReg() || s.IsReg() then Move(d, s) else Move(R(EAX), s) + Move(d, R(EAX));
      Assoc(old(code), front, Emit(Bin(op, d, Imm(Signed(imm)))));
      EmitInstr(Bin(op, d, Imm(Signed(imm))));
    }

    method TranslateRegType(d: Operand, s1: Operand, s2: Operand, op: BinOp)
      modifies this`code
      ensures code == old(code) + RegType(d, s1, s2, op)
    {
      hide Move, Emit;
      if d.IsImm() {
        return;
      }
      if d == s1 {
        if d.IsReg() || s2.IsReg() {
          EmitInstr(Bin(op, d, s2));
        } else {
          TranslateMove(R(EAX), s2);
          EmitInstr(Bin(op, d, R(EAX)));
          Assoc(old(code), Move(R(EAX), s2), Emit(Bin(op, d, R(EAX))));
        }
      } else if d != s2 && (d.IsReg() || !s1.IsMem()) {
        TranslateMove(d, s1);
        EmitInstr(Bin(op, d, s2));
        Assoc(old(code), Move(d, s1), Emit(Bin(op, d, s2)));
      } else {
        TranslateMove(R(EAX), s1);
        EmitInstr(Bin(op, R(EAX), s2));
        TranslateMove(d, R(EAX));
        Assoc3(old(code), Move(R(EAX), s1), Emit(Bin(op, R(EAX), s2)), Move(d, R(EAX)));
      }
    }

    method TranslateShift(d: Operand, s1: Operand, s2: Operand, op: BinOp)
      modifies this`code
      ensures code == old(code) + ShiftType(d, s1, s2, op)
    {
      hide Move, Emit;
      if d.IsImm() {
        return;
      }
      var dst := if d.IsMem() then R(EAX) else d;
      if dst != s1 {
        TranslateMove(dst, s1);
      }
      if d.IsMem() {
        TranslateMove(d, R(EAX));
      }
      assert code == old(code) + ShiftFront(d, s1);
      TranslateCount(d, s2, op);
      Assoc(old(code), ShiftFront(d, s1), ShiftByCount(d, s2, op));
    }

    /** The shift proper, with the amount in cl. */
    method TranslateCount(d: Operand, s2: Operand, op: BinOp)
      modifies this`code
      ensures code == old(code) + ShiftByCount(d, s2, op)
    {
      hide Move, Emit;
      if s2.IsImm() {
        return;
      }
      Assoc4(code, Move(R(EAX), R(ECX)), Move(R(ECX), s2), Emit(Bin(op, d, R(ECX))), Move(R(ECX), R(EAX)));
      TranslateMove(R(EAX), R(ECX));
      TranslateMove(R(ECX), s2);
      EmitInstr(Bin(op, d, R(ECX)));
      TranslateMove(R(ECX), R(EAX));
    }

    method TranslateCopy(d: Operand, s: Operand)
      modifies this`code
      ensures code == old(code) + CopyType(d, s)
    {
      if d.IsReg() || s.IsReg() {
        TranslateMove(d, s);
      } else {
        TranslateMove(R(EAX), s);
        TranslateMove(d, R(EAX));
      }
    }

    method TranslateCompare(s1: Operand, s2: Operand)
      modifies this`code
      ensures code == old(code) + Compare(s1, s2)
    {
      var fst := s1;
      if s1.IsMem() || s1.IsImm() {
        TranslateMove(R(EAX), s1);
        fst := R(EAX);
      }
      EmitInstr(Cmp(fst, s2));
    }

    method TranslateSet(d: Operand, c: Cond)
      modifies this`code
      ensures code == old(code) + SetFlag(d, c)
    {
      EmitInstr(Mov(d, Imm(0)));
      EmitInstr(Set(c, d));
    }

    method TranslateLoad(d: Operand, s1: Operand, imm: Word, size: nat, signed: bool)
      modifies this`code
      ensures code == old(code) + LoadType(d, s1, imm, size, signed)
    {
      hide Move, Emit;
      TranslateMove(R(EAX), s1);
      EmitInstr(AddMemBase);
      Assoc(old(code), Move(R(EAX), s1), Emit(AddMemBase));
      Assoc(old(code), AddressOf(s1), LoadTail(d, size, signed, Signed(imm)));
      if d.IsReg() {
        EmitInstr(LoadMem(d.h, size, signed, Signed(imm)));
      } else {
        EmitInstr(LoadMem(EDX, size, signed, Signed(imm)));
        TranslateMove(d, R(EDX));
        Assoc(old(code) + AddressOf(s1), Emit(LoadMem(EDX, size, signed, Signed(imm))), Move(d, R(EDX)));
      }
    }

    method TranslateStore(s1: Operand, s2: Operand, imm: Word, size: nat)
      modifies this`code
      ensures code == old(code) + StoreType(s1, s2, imm, size)
    {
      hide Move, Emit;
      TranslateMove(R(EAX), s1);
      EmitInstr(AddMemBase);
      Assoc(old(code), Move(R(EAX), s1), Emit(AddMemBase));
      Assoc(old(code), AddressOf(s1), StoreTail(s2, size, Signed(imm)));
      if s2.IsReg() {
        EmitInstr(StoreMem(size, Signed(imm), s2.h));
      } else {
        TranslateMove(R(EDX), s2);
        EmitInstr(StoreMem(size, Signed(imm), EDX));
        Assoc(old(code) + AddressOf(s1), Move(R(EDX), s2), Emit(StoreMem(size, Signed(imm), EDX)));
      }
    }

    method TranslateMul(d: Operand, s1: Operand, s2: Operand, half: HostReg)
      modifies this`code
      ensures code == old(code) + MulType(d, s1, s2, half)
    {
      TranslateMove(R(EAX), s1);
      EmitInstr(Mul(s2));
      TranslateMove(d, R(half));
    }

    // ----- instructions -----

    method TranslateImmArith(c: Cmd, d: Operand, s: Operand, imm: Word)
      requires IsImmArith(c)
      modifies this`code
      ensures code == old(code) + ImmArithCode(c, d, s, imm)
    {
      hide Move, Emit, ImmType, CopyType, SetFlag;
      match c
      case ADDI =>
        if s.IsImm() {
          TranslateMove(d, Imm(Signed(imm)));
        } else if imm == 0 {
          TranslateCopy(d, s);
        } else {
          TranslateImmType(d, s, imm, AddB);
        }
      case SLTI =>
        EmitInstr(Cmp(s, Imm(Signed(imm))));
        TranslateSet(d, CondL);
      case SLTIU =>
        EmitInstr(Cmp(s, Imm(imm)));
        TranslateSet(d, CondB);
      case XORI | ORI | ANDI | SLLI | SRLI | SRAI =>
        TranslateImmType(d, s, imm, ImmOp(c));
    }

    method TranslateRegArith(c: Cmd, d: Operand, s1: Operand, s2: Operand)
      requires IsRegArith(c)
      modifies this`code
      ensures code == old(code) + RegArithCode(c, d, s1, s2)
    {
      hide Move, Emit, RegType, ShiftType, CopyType, Compare, SetFlag, MulType;
      match c
      case ADD =>
        ghost var copy := if s1.IsImm() || s2.IsImm() then CopyType(d, if s1.IsImm() then s2 else s1) else [];
        if s1.IsImm() || s2.IsImm() {
          TranslateCopy(d, if s1.IsImm() then s2 else s1);
        }
        assert code == old(code) + copy;
        TranslateRegType(d, s1, s2, AddB);
        Assoc(old(code), copy, RegType(d, s1, s2, AddB));
      case SUB | XOR | OR | AND => TranslateRegType(d, s1, s2, RegOp(c));
      case SLL | SRL | SRA => TranslateShift(d, s1, s2, RegOp(c));
      case SLT =>
        TranslateCompare(s1, s2);
        TranslateSet(d, CondL);
        Assoc(old(code), Compare(s1, s2), SetFlag(d, CondL));
      case SLTU =>
        TranslateCompare(s1, s2);
        TranslateSet(d, CondB);
        Assoc(old(code), Compare(s1, s2), SetFlag(d, CondB));
      case MUL => TranslateMul(d, s1, s2, EAX);
      case MULH => TranslateMul(d, s1, s2, EDX);
      case MULHSU | MULHU | DIV | DIVU | REM | REMU =>
    }

    method TranslateAuipc(d: Operand, off: nat, imm: Word)
      modifies this`code
      ensures code == old(code) + AuipcCode(d, off, imm)
    {
      TranslateMove(R(EAX), PcField);
      EmitInstr(Bin(AddB, R(EAX), Imm(off + imm)));
      TranslateMove(d, R(EAX));
    }

    method TranslateJal(d: Operand, off: nat, imm: Word)
      modifies this`code
      ensures code == old(code) + JalCode(d, off, imm)
    {
      hide Move, Emit;
      ghost var jump := Emit(Bin(AddB, PcField, Imm(off + 2 * Signed(imm))));
      Assoc3(code, Move(R(EAX), PcField), Move(d, R(EAX)), Emit(Bin(AddB, d, Imm(off + 4))));
      Assoc(code, LinkCode(d, off + 4), jump);
      if !d.IsImm() {
        TranslateMove(R(EAX), PcField);
        TranslateMove(d, R(EAX));
        EmitInstr(Bin(AddB, d, Imm(off + 4)));
      }
      EmitInstr(Bin(AddB, PcField, Imm(off + 2 * Signed(imm))));
    }

    method TranslateJalr(d: Operand, s: Operand, off: nat, imm: Word)
      modifies this`code
      ensures code == old(code) + JalrCode(d, s, off, imm)
    {
      hide Move, Emit, JumpCode;
      ghost var x, y := Emit(Bin(AddB, PcField, Imm(off + 4))), Move(R(EAX), PcField) + Move(d, R(EAX));
      EmitInstr(Bin(AddB, PcField, Imm(off + 4)));
      TranslateMove(R(EAX), PcField);
      TranslateMove(d, R(EAX));
      assert code == old(code) + (x + y);
      TranslateJump(s, imm);
      Assoc(old(code), x + y, JumpCode(s, imm));
    }

    method TranslateJump(s: Operand, imm: Word)
      modifies this`code
      ensures code == old(code) + JumpCode(s, imm)
    {
      hide Move, Emit;
      TranslateMove(R(EAX), s);
      EmitInstr(Bin(AddB, R(EAX), Imm(Signed(imm))));
      EmitInstr(Bin(AndB, R(EAX), Imm(0xFFFF_FFFE)));
      TranslateMove(PcField, R(EAX));
    }

    method TranslateExit(c: Cond, off: nat, imm: Word)
      modifies this`code
      ensures code == old(code) + ExitTail(c, off, imm)
    {
      hide Emit, TakenOffset;
      EmitInstr(Jcc(c, TAKEN));
      EmitInstr(Bin(AddB, PcField, Imm(off + 4)));
      EmitInstr(Jmp(EXIT));
      EmitInstr(Bind(TAKEN));
      EmitInstr(Bin(AddB, PcField, Imm(TakenOffset(off, imm))));
      EmitInstr(Bind(EXIT));
    }

    method TranslateLoop(c: Cond, off: nat)
      modifies this`code
      ensures code == old(code) + LoopTail(c, off)
    {
      hide Emit;
      EmitInstr(Jcc(c, START));
      EmitInstr(Bin(AddB, PcField, Imm(off + 4)));
    }

    /** Labels are numbered; only a branch binds any besides the start. */
    method TranslateCondBranch(i: Inst, off: nat)
      requires Valid() && OpcodeOf(i.cmd) == OpBranch
      modifies this`code, this`regPool, regMapping
      ensures var c := BranchCode(old(Mapping()), i, off);
        Mapping() == c.a && code == old(code) + c.code
    {
      hide Compare, ExitTail, LoopTail, DeallocateFrom, RegOpnd, Emit;
      var c, s1, s2 := BranchCond(i.cmd), GetReg(i.rs1), GetReg(i.rs2);
      TranslateCompare(s1, s2);
      if TakenOffset(off, i.imm) != 0 {
        TranslateExit(c, off, i.imm);
        Assoc(old(code), Compare(s1, s2), ExitTail(c, off, i.imm));
      } else {
        ghost var all := DeallocateFrom(Mapping(), 1);
        DeallocateAllRegs();
        Assoc(old(code), Compare(s1, s2), all.code);
        TranslateLoop(c, off);
        Assoc(old(code), Compare(s1, s2) + all.code, LoopTail(c, off));
      }
    }

    method TranslateInst(i: Inst, off: nat)
      requires Valid()
      modifies this`code, this`regPool, regMapping
      ensures var c := Translate(old(Mapping()), i, off);
        Mapping() == c.a && code == old(code) + c.code
    {
      var d, s1, s2 := GetReg(i.rd), GetReg(i.rs1), GetReg(i.rs2);
      match OpcodeOf(i.cmd)
      case OpLui => TranslateMove(d, Imm(i.imm));
      case OpAuipc => TranslateAuipc(d, off, i.imm);
      case OpJal => TranslateJal(d, off, i.imm);
      case OpJalr => TranslateJalr(d, s1, off, i.imm);
      case OpLoad => TranslateLoad(d, s1, i.imm, AccessSize(i.cmd), IsSignedLoad(i.cmd));
      case OpStore => TranslateStore(s1, s2, i.imm, AccessSize(i.cmd));
      case OpImm => TranslateImmArith(i.cmd, d, s1, i.imm);
      case OpReg => TranslateRegArith(i.cmd, d, s1, s2);
      case OpBranch => TranslateCondBranch(i, off);
      case OpSystem | OpMiscMem =>
    }

    // ----- the compile loop -----

    method Prepare(inst: Inst, live: set<Reg>)
      requires Valid()
      modifies this`code, this`regPool, regMapping
      ensures var c := PreWork(old(Mapping()), inst, live);
        Mapping() == c.a && code == old(code) + c.code
      ensures forall r: Reg :: Names(inst, r) && r in live && r != 0 ==> regMapping[r].R? || regPool == []
      ensures forall r: Reg :: !(Names(inst, r) && r in live) ==> regMapping[r] == old(regMapping[r])
    {
      hide AllocateIf, OpcodeOf, FormatOf;
      ghost var before := Mapping();
      PreWorkServes(before, inst, live);
      ghost var x := AllocateIf(inst.IsRs1() && inst.rs1 in live, Mapping(), inst.rs1, true);
      ghost var y := AllocateIf(inst.IsRs2() && inst.rs2 in live, x.a, inst.rs2, true);
      ghost var z := AllocateIf(inst.IsRd() && inst.rd in live, y.a, inst.rd, false);
      AllocateWhen(inst.IsRs1() && inst.rs1 in live, inst.rs1, true);
      AllocateWhen(inst.IsRs2() && inst.rs2 in live, inst.rs2, true);
      AllocateWhen(inst.IsRd() && inst.rd in live, inst.rd, false);
      Assoc3(old(code), x.code, y.code, z.code);
    }

    method AllocateWhen(wanted: bool, r: Reg, load: bool)
      requires Valid()
      modifies this`code, this`regPool, regMapping
      ensures var c := AllocateIf(wanted, old(Mapping()), r, load);
        Mapping() == c.a && code == old(code) + c.code
    {
      hide Allocate;
      if r != 0 && wanted {
        AllocateReg(r, load);
      }
    }

    method Retire(inst: Inst, live: set<Reg>)
      requires Valid()
      modifies this`code, this`regPool, regMapping
      ensures var c := PostWork(old(Mapping()), inst, live);
        Mapping() == c.a && code == old(code) + c.code
      ensures forall r: Reg :: Names(inst, r) && r !in live && r != 0 ==> !regMapping[r].R?
      ensures forall r: Reg :: !(Names(inst, r) && r !in live) ==> regMapping[r] == old(regMapping[r])
    {
      hide DeallocateIf, OpcodeOf, FormatOf;
      ghost var before := Mapping();
      PostWorkReturns(before, inst, live);
      ghost var x := DeallocateIf(inst.IsRs1() && inst.rs1 !in live, Mapping(), inst.rs1);
      ghost var y := DeallocateIf(inst.IsRs2() && inst.rs2 !in live, x.a, inst.rs2);
      ghost var z := DeallocateIf(inst.IsRd() && inst.rd !in live, y.a, inst.rd);
      DeallocateWhen(inst.IsRs1() && inst.rs1 !in live, inst.rs1);
      DeallocateWhen(inst.IsRs2() && inst.rs2 !in live, inst.rs2);
      DeallocateWhen(inst.IsRd() && inst.rd !in live, inst.rd);
      Assoc3(old(code), x.code, y.code, z.code);
    }

    method DeallocateWhen(wanted: bool, r: Reg)
      requires Valid()
      modifies this`code, this`regPool, regMapping
      ensures var c := DeallocateIf(wanted, old(Mapping()), r);
        Mapping() == c.a && code == old(code) + c.code
    {
      hide Deallocate;
      if r != 0 && wanted {
        DeallocateReg(r);
      }
    }

    /** One round of the loop: allocate, translate, write back. */
    method TranslateAt(trace: seq<Inst>)
      requires Valid() && curInst < |trace| == |liveness| && liveness[curInst] == LiveAfter(trace, curInst)
      modifies this`code, this`regPool, regMapping
      ensures var c := CompileInst(trace, curInst, old(Mapping()));
        Mapping() == c.a && code == old(code) + c.code
    {
      hide PreWork, PostWork, Translate, LiveAfter;
      ghost var pre := PreWork(Mapping(), trace[curInst], liveness[curInst]);
      ghost var body := Translate(pre.a, trace[curInst], 4 * curInst);
      Prepare(trace[curInst], liveness[curInst]);
      TranslateInst(trace[curInst], 4 * curInst);
      Assoc(old(code), pre.code, body.code);
      Retire(trace[curInst], liveness[curInst]);
      Assoc(old(code), pre.code + body.code, PostWork(body.a, trace[curInst], liveness[curInst]).code);
    }

    /** Registers in their slots, the six pool registers free, nothing compiled. */
    constructor ()
      ensures Valid() && Mapping() == InitialAllocation() && code == [] && func == None && fresh(regMapping)
    {
      regMapping := new Operand[32](i => if 0 < i < 32 then Slot(i) else Imm(0));
      regPool := INITIAL_POOL;
      liveness, curInst, code, func := [], 0, [], None;
      new;
      assert regMapping[..] == InitialAllocation().place;
    }

    /** Compiles the trace, or stops at once when an instruction has no translation. */
    method CompileTrace(trace: seq<Inst>)
      requires Valid() && Mapping() == InitialAllocation() && code == [] && func == None
      modifies this, regMapping
      ensures func == if Supported(trace) then Some(Compile(trace)) else None
      ensures Valid() && (Supported(trace) ==> Mapping() == AllocationAt(trace, |trace|))
    {
      hide CompileInst, InitialAllocation, LiveAfter, AllocationAt;
      var k := 0;
      while k < |trace|
        invariant 0 <= k <= |trace| && forall i :: 0 <= i < k ==> trace[i].IsTranslationSupported()
      {
        if !trace[k].IsTranslationSupported() {
          return;
        }
        k := k + 1;
      }
      CalcLiveness(trace);
      EmitInstr(Bind(START));
      EmitInstr(AddExecuted(|trace|));
      assert code == Prologue(|trace|);
      CompileLoop(trace);
      EmitInstr(Ret);
      Assoc(Prologue(|trace|), CompileFrom(trace, 0, InitialAllocation()), [Ret]);
      func := Some(code);
    }

    method CompileLoop(trace: seq<Inst>)
      requires Valid() && |liveness| == |trace| && forall i :: 0 <= i < |trace| ==> liveness[i] == LiveAfter(trace, i)
      requires Mapping() == InitialAllocation()
      modifies this`code, this`regPool, this`curInst, regMapping
      ensures code == old(code) + CompileFrom(trace, 0, InitialAllocation())
      ensures Valid() && Mapping() == AllocationAt(trace, |trace|)
    {
      hide CompileInst, InitialAllocation, LiveAfter;
      curInst := 0;
      while curInst < |trace|
        invariant 0 <= curInst <= |trace|
        invariant code + CompileFrom(trace, curInst, Mapping()) == old(code) + CompileFrom(trace, 0, InitialAllocation())
        invariant Mapping() == AllocationAt(trace, curInst)
        decreases |trace| - curInst
      {
        ghost var before, a := code, Mapping();
        TranslateAt(trace);
        curInst := curInst + 1;
        Assoc(before, CompileInst(trace, curInst - 1, a).code, CompileFrom(trace, curInst, Mapping()));
      }
      Assoc(code, [], []);
    }
  }

  /** One step of the backward analysis: the definition first, then the uses. */
  method Backwards(inst: Inst, after: set<Reg>) returns (before: set<Reg>)
    ensures before == LiveBefore(inst, after)
  {
    before := after;
    if inst.IsRd() {
      before := before - {inst.rd};
    }
    if inst.IsRs1() {
      before := before + {inst.rs1};
    }
    if inst.IsRs2() {
      before := before + {inst.rs2};
    }
  }

  lemma LiveStep(trace: seq<Inst>, i: nat)
    requires i <= |trace|
    ensures 0 < i < |trace| ==> LiveAfter(trace, i - 1) == LiveBefore(trace[i], LiveAfter(trace, i))
    ensures i == |trace| && i > 0 ==> LiveAfter(trace, i - 1) == {}
  {
  }
}
