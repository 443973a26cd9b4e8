/** The interpreter as the source writes it: functions that update the shared state and chain to the next
    instruction, proved against the meaning of instructions and traces on values. */
module Interpreter {
  import opened Words
  import opened Isa
  import opened Guest
  import opened Arch

  const PAGE_SIZE := 4096
  const SP: Reg := 2

  class State {
    const regs: array<Word>
    const mem: array<Byte>
    var pc: Word
    var executed: nat

    ghost predicate Valid()
      reads this, regs
    {
      regs.Length == 32 && regs[0] == 0 && executed < TWO64
    }

    ghost function View(): GState
      reads this, regs, mem
      requires Valid()
    {
      StateRep(regs[..], pc, mem[..], executed)
    }

    /** The program is already placed in memory; the stack starts two pages below the end. */
    constructor (image: seq<Byte>, pc: Word)
      ensures Valid() && fresh(regs) && fresh(mem)
      ensures View() == Guest.SetReg(StateRep(seq(32, _ => 0), pc, image, 0), SP, Wrap(|image| - 2 * PAGE_SIZE))
      ensures View().regs[2] == (|image| - 8192) % 0x1_0000_0000 && forall r: Reg :: r != 2 ==> View().regs[r] == 0
    {
      regs := new Word[32](_ => 0);
      mem := new Byte[|image|](i requires 0 <= i < |image| => image[i]);
      this.pc := pc;
      executed := 0;
      new;
      assert mem[..] == image;
      assert regs[..] == seq(32, _ => 0);
      SetReg(SP, Wrap(|image| - 2 * PAGE_SIZE));
    }

    method GetReg(r: Reg) returns (v: Word)
      requires Valid()
      ensures v == View().regs[r]
    {
      v := regs[r];
    }

    method SetReg(r: Reg, v: Word)
      requires Valid()
      modifies regs
      ensures Valid() && View() == Guest.SetReg(old(View()), r, v)
    {
      if r != 0 {
        regs[r] := v;
      }
    }

    method SetPC(v: Word)
      requires Valid()
      modifies this`pc
      ensures Valid() && View() == old(View()).(pc := v)
    {
      pc := v;
    }

    /** Little-endian load; not ok stands for the exception of the bounds check. */
    method Load(va: Word, n: nat) returns (ok: bool, v: Word)
      requires Valid() && IsSize(n)
      ensures ok <==> !OutOfMemory(View().mem, va, n)
      ensures ok ==> v == LoadBytes(View().mem, va, n)
    {
      hide Extend;
      if va + n >= mem.Length {
        return false, 0;
      }
      return true, LoadBytes(mem[..], va, n);
    }

    method Store(va: Word, n: nat, v: Word) returns (ok: bool)
      requires Valid() && IsSize(n)
      modifies mem
      ensures Valid() && (ok <==> !OutOfMemory(old(View()).mem, va, n))
      ensures View() == if ok then old(View()).(mem := StoreBytes(old(View()).mem, va, n, v)) else old(View())
    {
      if va + n >= mem.Length {
        return false;
      }
      mem[va] := v % 0x100;
      if n >= 2 {
        mem[va + 1] := v / 0x100 % 0x100;
      }
      if n == 4 {
        mem[va + 2] := v / 0x1_0000 % 0x100;
        mem[va + 3] := v / 0x100_0000 % 0x100;
      }
      return true;
    }

    // ----- one instruction; off is its distance from the trace head, where pc points -----

    method ExecArith(sys: Sys, inst: Inst, off: nat)
      requires Valid() && OpcodeOf(inst.cmd) in {OpLui, OpAuipc, OpImm, OpReg}
      modifies regs
      ensures Valid() && Step(sys, inst, off, old(View())) == Running(View())
    {
      hide ImmResult, RegResult, Add, Wrap, Guest.SetReg;
      var rs1 := GetReg(inst.rs1);
      var rs2 := GetReg(inst.rs2);
      match OpcodeOf(inst.cmd)
      case OpLui => SetReg(inst.rd, inst.imm);
      case OpAuipc => SetReg(inst.rd, Add(Add(pc, Wrap(off)), inst.imm));
      case OpImm => SetReg(inst.rd, ImmResult(inst.cmd, rs1, inst.imm));
      case OpReg => SetReg(inst.rd, RegResult(inst.cmd, rs1, rs2));
    }

    method ExecLoad(sys: Sys, inst: Inst, off: nat) returns (ok: bool)
      requires Valid() && OpcodeOf(inst.cmd) == OpLoad
      modifies regs
      ensures Valid() && Step(sys, inst, off, old(View())) == if ok then Running(View()) else Stopped(View())
    {
      hide Add, Wrap, Guest.SetReg, LoadBytes, Extend, AccessSize, IsSignedLoad;
      var rs1 := GetReg(inst.rs1);
      var n, v := AccessSize(inst.cmd), 0;
      ok, v := Load(Add(rs1, inst.imm), n);
      if ok {
        SetReg(inst.rd, Extend(v, n, IsSignedLoad(inst.cmd)));
      }
    }

    method ExecStore(sys: Sys, inst: Inst, off: nat) returns (ok: bool)
      requires Valid() && OpcodeOf(inst.cmd) == OpStore
      modifies mem
      ensures Valid() && Step(sys, inst, off, old(View())) == if ok then Running(View()) else Stopped(View())
    {
      hide Add, Wrap, StoreBytes, AccessSize;
      var rs1 := GetReg(inst.rs1);
      var rs2 := GetReg(inst.rs2);
      ok := Store(Add(rs1, inst.imm), AccessSize(inst.cmd), rs2);
    }

    /** JAL, JALR (which writes rd before it reads rs1), the branches and FENCE. */
    method ExecJump(sys: Sys, inst: Inst, off: nat)
      requires Valid() && OpcodeOf(inst.cmd) in {OpJal, OpJalr, OpBranch, OpMiscMem}
      modifies this`pc, regs
      ensures Valid() && Step(sys, inst, off, old(View())) == Running(View())
    {
      hide Add, Wrap, Guest.SetReg, BranchTaken, And;
      var curPc := Add(pc, Wrap(off));
      match OpcodeOf(inst.cmd)
      case OpJal =>
        SetReg(inst.rd, Add(curPc, 4));
        SetPC(Wrap(curPc + 2 * Signed(inst.imm)));
      case OpJalr =>
        SetReg(inst.rd, Add(curPc, 4));
        var rs1 := GetReg(inst.rs1);
        SetPC(And(Add(rs1, inst.imm), 0xFFFF_FFFE));
      case OpBranch =>
        var rs1 := GetReg(inst.rs1);
        var rs2 := GetReg(inst.rs2);
        SetPC(if BranchTaken(inst.cmd, rs1, rs2) then Wrap(curPc + 2 * Signed(inst.imm)) else Add(curPc, 4));
      case OpMiscMem => SetPC(Add(curPc, 4));
    }

    /** The bytes a system call stores, in order, up to the first that is out of memory. */
    method StoreAll(writes: seq<(Word, Byte)>) returns (ok: bool)
      requires Valid()
      modifies mem
      ensures Valid() && WriteAll(old(View()), writes) == if ok then Running(View()) else Stopped(View())
      decreases |writes|
    {
      hide StoreBytes;
      if writes == [] {
        return true;
      }
      ok := Store(writes[0].0, 1, writes[0].1);
      if ok {
        ok := StoreAll(writes[1..]);
      }
    }

    method ExecSystem(sys: Sys, inst: Inst, off: nat) returns (ok: bool)
      requires Valid() && OpcodeOf(inst.cmd) == OpSystem
      modifies regs, mem
      ensures Valid() && Step(sys, inst, off, old(View())) == if ok then Running(View()) else Stopped(View())
    {
      hide WriteAll, Guest.SetReg, Add, Wrap;
      if inst.cmd == ECALL {
        match sys(regs[..], mem[..])
        case SysStop => return false;
        case SysReturn(a0, writes) =>
          ok := StoreAll(writes);
          if ok {
            SetReg(A0, a0);
          }
      } else {
        var rs1 := GetReg(inst.rs1);
        ok := !(inst.cmd == CSRRW && (Signed(inst.imm) != 0x180 || rs1 >= HALF));
      }
    }

    /** The function of the command table that executes the instruction. */
    method ExecInst(sys: Sys, inst: Inst, off: nat) returns (ok: bool)
      requires Valid()
      modifies this`pc, regs, mem
      ensures Valid() && Step(sys, inst, off, old(View())) == if ok then Running(View()) else Stopped(View())
    {
      hide Step;
      ok := true;
      match OpcodeOf(inst.cmd)
      case OpLui | OpAuipc | OpImm | OpReg => ExecArith(sys, inst, off);
      case OpLoad => ok := ExecLoad(sys, inst, off);
      case OpStore => ok := ExecStore(sys, inst, off);
      case OpJal | OpJalr | OpBranch | OpMiscMem => ExecJump(sys, inst, off);
      case OpSystem => ok := ExecSystem(sys, inst, off);
    }

    /** The chain of NEXT_INST and END_TRACE from instruction i on. */
    method ExecFrom(sys: Sys, trace: seq<Inst>, i: nat) returns (ok: bool)
      requires Valid() && IsTrace(trace) && i < |trace|
      modifies this`pc, regs, mem
      ensures Valid() && RunFrom(sys, trace, i, old(View())) == if ok then Running(View()) else Stopped(View())
      decreases |trace| - i
    {
      hide Step, RunFrom;
      RunFromStep(sys, trace, i, View());
      ok := ExecInst(sys, trace[i], 4 * i);
      if ok && !trace[i].IsTerminator() {
        ok := ExecFrom(sys, trace, i + 1);
      }
    }

    /** The interpreting half of `Trace::execute`. */
    method Interpret(sys: Sys, trace: seq<Inst>) returns (ok: bool)
      requires Valid() && IsTrace(trace)
      modifies this, regs, mem
      ensures Valid() && RunTrace(sys, trace, old(View())) == if ok then Running(View()) else Stopped(View())
    {
      hide RunFrom;
      ok := ExecFrom(sys, trace, 0);
      if ok {
        executed := (executed + |trace|) % TWO64;
      }
    }

    /** The state as native code finds it. */
    method Read() returns (g: GState)
      requires Valid()
      ensures g == View()
    {
      g := StateRep(regs[..], pc, mem[..], executed);
    }

    /** The state as native code leaves it. */
    method Install(g: GState)
      requires Valid() && |g.mem| == mem.Length
      modifies this, regs, mem
      ensures Valid() && View() == g
    {
      for i := 0 to 32
        modifies regs
        invariant forall j :: 0 <= j < i ==> regs[j] == g.regs[j]
      {
        regs[i] := g.regs[i];
      }
      for i := 0 to mem.Length
        modifies mem
        invariant forall j :: 0 <= j < i ==> mem[j] == g.mem[j]
      {
        mem[i] := g.mem[i];
      }
      pc := g.pc;
      executed := g.executed;
      assert regs[..] == g.regs && mem[..] == g.mem;
    }
  }
}
