/** A machine that fetches, decodes and executes one instruction at a time, and why running a whole
    trace before moving the program counter is the same. */
module Arch {
  import opened Words
  import opened Isa
  import opened Guest
  import opened Options
  import opened Decoding

  // ----- the reference machine -----

  /** The instruction word at an address: fetching past the end throws, like any access. */
  function FetchWord(mem: seq<Byte>, a: Word): Option<Word> {
    if OutOfMemory(mem, a, 4) then None else Some(LoadBytes(mem, a, 4))
  }

  /** The instruction at an address, when its word is in memory and decodes. */
  function Fetch(mem: seq<Byte>, a: Word): (r: Option<Inst>)
    ensures r.Some? ==> a + 4 < |mem|
  {
    match FetchWord(mem, a)
    case None => None
    case Some(w) => Decode(w)
  }

  /** After an instruction that does not set pc itself, pc moves to the next word. */
  function Advance(i: Inst, s: GState): GState {
    if i.IsTerminator() then s else s.(pc := Add(s.pc, 4))
  }

  /** One step: pc always is the address of the instruction, and every instruction counts by itself. */
  function ArchStep(sys: Sys, s: GState): Outcome {
    match Fetch(s.mem, s.pc)
    case None => Stopped(s)
    case Some(i) =>
      match Step(sys, i, 0, s)
      case Stopped(t) => Stopped(t)
      case Running(t) => Running(Count(Advance(i, t), 1))
  }

  function ArchRun(sys: Sys, s: GState, n: nat): Outcome {
    if n == 0 then Running(s)
    else
      match ArchRun(sys, s, n - 1)
      case Stopped(t) => Stopped(t)
      case Running(t) => ArchStep(sys, t)
  }

  lemma {:induction false} ArchRunAdd(sys: Sys, s: GState, m: nat, n: nat)
    requires ArchRun(sys, s, m).Running?
    ensures ArchRun(sys, s, m + n) == ArchRun(sys, ArchRun(sys, s, m).s, n)
  {
    hide ArchStep;
    if n > 0 {
      ArchRunAdd(sys, s, m, n - 1);
      assert m + n - 1 == m + (n - 1);
    }
  }

  // ----- building a trace -----

  lemma TraceGrows(i: Inst)
    ensures if i.IsTerminator() then IsTrace([i]) else forall rest :: IsTrace(rest) ==> IsTrace([i] + rest)
  {
    forall rest | !i.IsTerminator() && IsTrace(rest)
      ensures IsTrace([i] + rest)
    {
      var t := [i] + rest;
      assert forall j :: 0 < j < |t| ==> t[j] == rest[j - 1];
    }
  }

  /** The trace at an address: instructions up to the first terminator. It ends because the next
      address has to be inside memory, and memory is no larger than the address space. */
  function Build(mem: seq<Byte>, a: Word): (r: Option<seq<Inst>>)
    requires |mem| <= 0x1_0000_0000
    ensures r.Some? ==> IsTrace(r.value)
    decreases |mem| - a
  {
    hide Fetch, IsTrace;
    match Fetch(mem, a)
    case None => None
    case Some(i) =>
      TraceGrows(i);
      if i.IsTerminator() then Some([i])
      else
        match Build(mem, a + 4)
        case None => None
        case Some(rest) => Some([i] + rest)
  }

  lemma BuildStep(mem: seq<Byte>, a: Word)
    requires |mem| <= 0x1_0000_0000 && Build(mem, a).Some?
    ensures a + 4 < |mem| && Fetch(mem, a) == Some(Build(mem, a).value[0])
    ensures var trace := Build(mem, a).value;
            |trace| > 1 ==> Build(mem, a + 4) == Some(trace[1..])
  {
    hide Decode;
  }

  /** From a on, n words are instructions that do not end a trace, and the next word cannot be fetched. */
  predicate Derails(mem: seq<Byte>, a: Word, n: nat)
    requires |mem| <= 0x1_0000_0000
  {
    && a + 4 * n < 0x1_0000_0000 && Fetch(mem, a + 4 * n) == None
    && forall i :: 0 <= i < n ==> GoesOn(mem, a + 4 * i)
  }

  predicate GoesOn(mem: seq<Byte>, a: nat)
    requires |mem| <= 0x1_0000_0000
  {
    a < 0x1_0000_0000 && Fetch(mem, a).Some? && !Fetch(mem, a).value.IsTerminator()
  }

  /** No trace can be built exactly when the straight line from a meets a word that is not in memory or does
      not decode before it meets a terminator. */
  lemma {:induction false} BuildFails(mem: seq<Byte>, a: Word)
    requires |mem| <= 0x1_0000_0000
    ensures Build(mem, a) == None <==> exists n: nat :: Derails(mem, a, n)
    decreases |mem| - a
  {
    hide Derails, GoesOn, Fetch, Build;
    BuildNext(mem, a);
    if GoesOn(mem, a) {
      var next: Word := a + 4;
      BuildFails(mem, next);
      if n: nat :| Derails(mem, next, n) {
        DerailsLater(mem, a, n);
        assert Derails(mem, a, n + 1);
      }
      if n: nat :| Derails(mem, a, n) {
        DerailsPast(mem, a, n);
        DerailsLater(mem, a, n - 1);
        assert Derails(mem, next, n - 1);
      }
    } else if n: nat :| Derails(mem, a, n) {
      DerailsAt(mem, a, n);
    } else {
      DerailsNow(mem, a);
    }
  }

  lemma BuildNext(mem: seq<Byte>, a: Word)
    requires |mem| <= 0x1_0000_0000
    ensures if GoesOn(mem, a) then a + 4 < |mem| && (Build(mem, a) == None <==> Build(mem, a + 4) == None)
            else Build(mem, a) == None <==> Fetch(mem, a) == None
  {
    hide Decode, LoadBytes;
  }

  lemma DerailsAt(mem: seq<Byte>, a: Word, n: nat)
    requires |mem| <= 0x1_0000_0000 && Derails(mem, a, n)
    ensures if n > 0 then GoesOn(mem, a) else Fetch(mem, a) == None
  {
    hide Fetch, GoesOn;
    if n > 0 {
      assert GoesOn(mem, a + 4 * 0);
    }
  }

  lemma DerailsNow(mem: seq<Byte>, a: Word)
    requires |mem| <= 0x1_0000_0000 && forall n: nat :: !Derails(mem, a, n)
    ensures Fetch(mem, a) != None
  {
    hide Fetch, GoesOn;
    assert !Derails(mem, a, 0);
  }

  lemma DerailsPast(mem: seq<Byte>, a: Word, n: nat)
    requires |mem| <= 0x1_0000_0000 && GoesOn(mem, a) && Derails(mem, a, n)
    ensures n > 0
  {
    hide Decode, LoadBytes;
  }

  lemma DerailsLater(mem: seq<Byte>, a: Word, n: nat)
    requires |mem| <= 0x1_0000_0000 && GoesOn(mem, a) && a + 4 < |mem|
    ensures Derails(mem, a + 4, n) <==> Derails(mem, a, n + 1)
  {
    hide Fetch, GoesOn;
    assert (a + 4) + 4 * n == a + 4 * (n + 1);
    if Derails(mem, a + 4, n) {
      forall i | 0 <= i < n + 1
        ensures GoesOn(mem, a + 4 * i)
      {
        assert i > 0 ==> GoesOn(mem, (a + 4) + 4 * (i - 1));
      }
    }
    if Derails(mem, a, n + 1) {
      forall i | 0 <= i < n
        ensures GoesOn(mem, (a + 4) + 4 * i)
      {
        assert GoesOn(mem, a + 4 * (i + 1));
      }
    }
  }

  /** For n more words the machine fetches what was there at the start: no store on the way changes them. */
  ghost predicate LineStays(sys: Sys, s: GState, n: nat) {
    forall i {:trigger ArchRun(sys, s, i)} :: 0 <= i <= n && ArchRun(sys, s, i).Running? && s.pc + 4 * i < 0x1_0000_0000 ==>
        Fetch(ArchRun(sys, s, i).s.mem, s.pc + 4 * i) == Fetch(s.mem, s.pc + 4 * i)
  }

  ghost predicate StopsAt(sys: Sys, start: GState, k: nat) {
    ArchRun(sys, start, k).Running? && ArchStep(sys, ArchRun(sys, start, k).s).Stopped?
  }

  lemma StepsOver(sys: Sys, s: GState, inst: Inst)
    requires Fetch(s.mem, s.pc) == Some(inst) && !inst.IsTerminator() && s.pc + 4 < 0x1_0000_0000
    ensures ArchStep(sys, s).Running? ==> ArchStep(sys, s).s.pc == s.pc + 4
  {
    hide Step, Fetch;
  }

  /** Word i of the line, as the machine finds it after i steps. */
  lemma LineAt(sys: Sys, s: GState, n: nat, i: nat)
    requires |s.mem| <= 0x1_0000_0000 && Derails(s.mem, s.pc, n) && LineStays(sys, s, n) && ArchRun(sys, s, i).Running?
    ensures i <= n ==> s.pc + 4 * i < 0x1_0000_0000
    ensures i < n ==> var f := Fetch(ArchRun(sys, s, i).s.mem, s.pc + 4 * i);
                       f.Some? && !f.value.IsTerminator() && s.pc + 4 * i + 4 < 0x1_0000_0000
    ensures i == n ==> Fetch(ArchRun(sys, s, i).s.mem, s.pc + 4 * i) == None
  {
    hide ArchRun, ArchStep, Fetch;
    assert i < n ==> GoesOn(s.mem, s.pc + 4 * i);
  }

  /** As long as it has not stopped, the machine follows the straight line. */
  lemma {:induction false} FollowsLine(sys: Sys, s: GState, n: nat, i: nat)
    requires |s.mem| <= 0x1_0000_0000 && Derails(s.mem, s.pc, n) && LineStays(sys, s, n) && i <= n
    ensures || (exists k: nat :: k < i && StopsAt(sys, s, k))
            || (ArchRun(sys, s, i).Running? && ArchRun(sys, s, i).s.pc == s.pc + 4 * i)
    decreases i
  {
    hide ArchRun, ArchStep, Fetch, Derails, LineStays, StopsAt;
    ArchStart(sys, s);
    if i > 0 {
      FollowsLine(sys, s, n, i - 1);
      if !exists k: nat :: k < i - 1 && StopsAt(sys, s, k) {
        LineAt(sys, s, n, i - 1);
        var t := ArchRun(sys, s, i - 1).s;
        StepsOver(sys, t, Fetch(t.mem, t.pc).value);
        ArchNext(sys, s, i - 1);
        StopsNext(sys, s, i - 1);
      }
    }
  }

  lemma StopsNext(sys: Sys, s: GState, i: nat)
    requires ArchRun(sys, s, i).Running?
    ensures StopsAt(sys, s, i) <==> ArchStep(sys, ArchRun(sys, s, i).s).Stopped?
  {
  }

  /** Where no trace can be built, the machine stops within the straight line. */
  lemma DerailedStops(sys: Sys, s: GState, n: nat) returns (k: nat)
    requires |s.mem| <= 0x1_0000_0000 && Derails(s.mem, s.pc, n) && LineStays(sys, s, n)
    ensures k <= n && StopsAt(sys, s, k)
  {
    hide ArchRun, ArchStep, Fetch, Derails, LineStays, StopsAt;
    FollowsLine(sys, s, n, n);
    if j: nat :| j < n && StopsAt(sys, s, j) {
      k := j;
    } else {
      k := n;
      LineAt(sys, s, n, n);
      StopsNext(sys, s, n);
      StopsUnfetched(sys, ArchRun(sys, s, n).s);
    }
  }

  lemma StopsUnfetched(sys: Sys, s: GState)
    requires Fetch(s.mem, s.pc) == None
    ensures ArchStep(sys, s) == Stopped(s)
  {
    hide Fetch;
  }

  /** Word i of the trace is where a jump into the trace at a expects it. */
  lemma {:induction false} BuildFetches(mem: seq<Byte>, a: Word, i: nat)
    requires |mem| <= 0x1_0000_0000 && Build(mem, a).Some? && i < |Build(mem, a).value|
    ensures a + 4 * i + 4 < |mem| && Fetch(mem, a + 4 * i) == Some(Build(mem, a).value[i])
    decreases i
  {
    hide Build, Fetch;
    BuildStep(mem, a);
    if i > 0 {
      BuildFetches(mem, a + 4, i - 1);
      assert a + 4 * i == (a + 4) + 4 * (i - 1);
    }
  }

  // ----- deferred program counter -----

  /** State s of a run that keeps pc at the trace head, as the reference machine sees it when it comes
      to instruction i. */
  function Seen(s: GState, i: nat): GState {
    Count(s.(pc := Add(s.pc, Wrap(4 * i))), i)
  }

  lemma SeenFacts(s: GState, i: nat)
    ensures Seen(s, i).regs == s.regs && Seen(s, i).mem == s.mem
    ensures Add(Seen(s, i).pc, Wrap(0)) == Add(s.pc, Wrap(4 * i))
  {
  }

  lemma SeenSetReg(s: GState, i: nat, r: Reg, v: Word)
    ensures SetReg(Seen(s, i), r, v) == Seen(SetReg(s, r, v), i)
  {
  }

  lemma SeenMem(s: GState, i: nat, mem: seq<Byte>)
    ensures Seen(s, i).(mem := mem) == Seen(s.(mem := mem), i)
  {
  }

  lemma SeenPc(s: GState, i: nat, pc: Word)
    ensures Seen(s, i).(pc := pc) == Count(s.(pc := pc), i)
  {
  }

  /** What StepSeen claims of the two outcomes. */
  predicate Agree(inst: Inst, i: nat, o: Outcome, u: Outcome) {
    && o.Running? == u.Running?
    && u.s.regs == o.s.regs && u.s.mem == o.s.mem
    && (!inst.IsTerminator() ==> u.s == Seen(o.s, i))
    && (inst.IsTerminator() ==> o.Running? && u.s == Count(o.s, i))
  }

  lemma ArithSeen(sys: Sys, inst: Inst, i: nat, s: GState)
    requires OpcodeOf(inst.cmd) in {OpLui, OpAuipc, OpImm, OpReg}
    ensures Agree(inst, i, Step(sys, inst, 4 * i, s), Step(sys, inst, 0, Seen(s, i)))
  {
    hide ImmResult, RegResult, Add, Wrap, SetReg, Seen;
    SeenFacts(s, i);
    var v := Step(sys, inst, 4 * i, s).s;
    match OpcodeOf(inst.cmd)
    case OpLui => SeenSetReg(s, i, inst.rd, inst.imm); SeenFacts(v, i);
    case OpAuipc => SeenSetReg(s, i, inst.rd, Add(Add(s.pc, Wrap(4 * i)), inst.imm)); SeenFacts(v, i);
    case OpImm => SeenSetReg(s, i, inst.rd, ImmResult(inst.cmd, s.regs[inst.rs1], inst.imm)); SeenFacts(v, i);
    case OpReg => SeenSetReg(s, i, inst.rd, RegResult(inst.cmd, s.regs[inst.rs1], s.regs[inst.rs2])); SeenFacts(v, i);
  }

  lemma MemorySeen(sys: Sys, inst: Inst, i: nat, s: GState)
    requires OpcodeOf(inst.cmd) in {OpLoad, OpStore}
    ensures Agree(inst, i, Step(sys, inst, 4 * i, s), Step(sys, inst, 0, Seen(s, i)))
  {
    hide Add, Wrap, SetReg, Seen, LoadBytes, StoreBytes, Extend;
    SeenFacts(s, i);
    var o := Step(sys, inst, 4 * i, s);
    SeenFacts(o.s, i);
    var va, n := Add(s.regs[inst.rs1], inst.imm), AccessSize(inst.cmd);
    if !OutOfMemory(s.mem, va, n) {
      if OpcodeOf(inst.cmd) == OpLoad {
        SeenSetReg(s, i, inst.rd, Extend(LoadBytes(s.mem, va, n), n, IsSignedLoad(inst.cmd)));
      } else {
        SeenMem(s, i, StoreBytes(s.mem, va, n, s.regs[inst.rs2]));
      }
    }
  }

  lemma JumpSeen(sys: Sys, inst: Inst, i: nat, s: GState)
    requires OpcodeOf(inst.cmd) in {OpJal, OpJalr, OpBranch, OpMiscMem}
    ensures Agree(inst, i, Step(sys, inst, 4 * i, s), Step(sys, inst, 0, Seen(s, i)))
  {
    hide Step, Add, Wrap, SetReg, Seen, Count;
    SeenFacts(s, i);
    FenceEnds(inst.cmd);
    var curPc := Add(s.pc, Wrap(4 * i));
    var e := JumpEffect(inst, curPc, s);
    var t, pc := e.0, e.1;
    JumpStep(sys, inst, 4 * i, s);
    JumpStep(sys, inst, 0, Seen(s, i));
    SeenSetReg(s, i, inst.rd, Add(curPc, 4));
    SeenFacts(t, i);
    SeenPc(t, i, pc);
    CountFacts(t.(pc := pc), i);
  }

  /** The registers and the target of a jump, branch or FENCE at curPc. */
  function JumpEffect(inst: Inst, curPc: Word, s: GState): (GState, Word)
    requires OpcodeOf(inst.cmd) in {OpJal, OpJalr, OpBranch, OpMiscMem}
  {
    var t := SetReg(s, inst.rd, Add(curPc, 4));
    match OpcodeOf(inst.cmd)
    case OpJal => (t, Wrap(curPc + 2 * Signed(inst.imm)))
    case OpJalr => (t, And(Add(t.regs[inst.rs1], inst.imm), 0xFFFF_FFFE))
    case OpBranch =>
      (s, if BranchTaken(inst.cmd, s.regs[inst.rs1], s.regs[inst.rs2]) then Wrap(curPc + 2 * Signed(inst.imm)) else Add(curPc, 4))
    case OpMiscMem => (s, Add(curPc, 4))
  }

  lemma JumpStep(sys: Sys, inst: Inst, off: nat, s: GState)
    requires OpcodeOf(inst.cmd) in {OpJal, OpJalr, OpBranch, OpMiscMem}
    ensures var e := JumpEffect(inst, Add(s.pc, Wrap(off)), s);
            Step(sys, inst, off, s) == Running(e.0.(pc := e.1))
  {
    hide Add, Wrap, SetReg, And, Signed, BranchTaken, LoadBytes, StoreBytes, Extend, ImmResult, RegResult, SysCall;
  }

  lemma CountFacts(s: GState, n: nat)
    ensures Count(s, n).regs == s.regs && Count(s, n).mem == s.mem && Count(s, n).pc == s.pc
  {
  }

  lemma FenceEnds(c: Cmd)
    ensures OpcodeOf(c) == OpMiscMem <==> c == FENCE
  {
  }

  lemma {:induction false} WritesSeen(s: GState, i: nat, writes: seq<(Word, Byte)>)
    ensures var o := WriteAll(s, writes);
            WriteAll(Seen(s, i), writes) == if o.Running? then Running(Seen(o.s, i)) else Stopped(Seen(o.s, i))
    decreases |writes|
  {
    hide Seen, StoreBytes;
    SeenFacts(s, i);
    if writes != [] && !OutOfMemory(s.mem, writes[0].0, 1) {
      var mem := StoreBytes(s.mem, writes[0].0, 1, writes[0].1);
      SeenMem(s, i, mem);
      WritesSeen(s.(mem := mem), i, writes[1..]);
    }
  }

  lemma SystemSeen(sys: Sys, inst: Inst, i: nat, s: GState)
    requires OpcodeOf(inst.cmd) == OpSystem
    ensures Agree(inst, i, Step(sys, inst, 4 * i, s), Step(sys, inst, 0, Seen(s, i)))
  {
    hide Seen, Add, Wrap, WriteAll, SetReg;
    SeenFacts(s, i);
    SeenFacts(Step(sys, inst, 4 * i, s).s, i);
    if inst.cmd == ECALL {
      match sys(s.regs, s.mem)
      case SysStop =>
      case SysReturn(a0, writes) =>
        WritesSeen(s, i, writes);
        SeenSetReg(WriteAll(s, writes).s, i, A0, a0);
    }
  }

  /** Register and memory effects do not depend on how pc is kept. */
  lemma StepSeen(sys: Sys, inst: Inst, i: nat, s: GState)
    ensures Agree(inst, i, Step(sys, inst, 4 * i, s), Step(sys, inst, 0, Seen(s, i)))
  {
    hide Step, Seen, Agree;
    match OpcodeOf(inst.cmd)
    case OpLui | OpAuipc | OpImm | OpReg => ArithSeen(sys, inst, i, s);
    case OpLoad | OpStore => MemorySeen(sys, inst, i, s);
    case OpJal | OpJalr | OpBranch | OpMiscMem => JumpSeen(sys, inst, i, s);
    case OpSystem => SystemSeen(sys, inst, i, s);
  }

  // ----- a whole trace -----

  /** The bytes at the addresses in code are the same. */
  ghost predicate SameCode(mem: seq<Byte>, other: seq<Byte>, code: set<nat>) {
    |mem| == |other| && forall x :: x in code && x < |mem| ==> mem[x] == other[x]
  }

  /** No instruction that the trace executes from i on changes a byte of the code. */
  ghost predicate SparesCode(sys: Sys, trace: seq<Inst>, i: nat, s: GState, code: set<nat>)
    requires IsTrace(trace) && i < |trace|
    decreases |trace| - i
  {
    var o := Step(sys, trace[i], 4 * i, s);
    SameCode(s.mem, o.s.mem, code) && (o.Running? && i + 1 < |trace| ==> SparesCode(sys, trace, i + 1, o.s, code))
  }

  /** The addresses that n words from a on take up are all code. */
  ghost predicate Covers(code: set<nat>, a: Word, n: nat) {
    forall x: nat :: a <= x < a + 4 * n ==> x in code
  }

  lemma SameFetch(mem: seq<Byte>, other: seq<Byte>, code: set<nat>, a: Word, n: nat, i: nat)
    requires SameCode(mem, other, code) && Covers(code, a, n) && i < n && a + 4 * i + 4 < |mem| <= 0x1_0000_0000
    ensures Fetch(other, a + 4 * i) == Fetch(mem, a + 4 * i)
  {
    hide Decode;
    var b := a + 4 * i;
    assert b in code && b + 1 in code && b + 2 in code && b + 3 in code;
  }

  lemma SameCodeTrans(a: seq<Byte>, b: seq<Byte>, c: seq<Byte>, code: set<nat>)
    requires SameCode(a, b, code) && SameCode(b, c, code)
    ensures SameCode(a, c, code)
  {
  }

  lemma NextSeen(s: GState, i: nat)
    ensures Count(Seen(s, i).(pc := Add(Seen(s, i).pc, 4)), 1) == Seen(s, i + 1)
  {
    hide Add, Wrap;
    AddTwice(s.pc, 4 * i);
    assert 4 * i + 4 == 4 * (i + 1);
    CountTwice(s.executed, i);
  }

  lemma AddTwice(p: Word, k: nat)
    ensures Add(Add(p, Wrap(k)), 4) == Add(p, Wrap(k + 4))
  {
    hide Wrap;
    WrapAdd(4, p + Wrap(k));
    WrapAdd(p + 4, k);
    WrapAdd(p, k + 4);
  }

  lemma CountTwice(e: nat, n: nat)
    ensures ((e + n) % TWO64 + 1) % TWO64 == (e + (n + 1)) % TWO64
  {
  }

  lemma CountNext(s: GState, n: nat)
    ensures Count(Count(s, n), 1) == Count(s, n + 1)
  {
  }

  lemma AddInside(p: Word, k: nat)
    requires p + k < 0x1_0000_0000
    ensures Add(p, Wrap(k)) == p + k
  {
  }

  /** One instruction of the trace is one step of the reference machine. */
  lemma StepIsArch(sys: Sys, inst: Inst, i: nat, s: GState)
    requires Fetch(s.mem, Add(s.pc, Wrap(4 * i))) == Some(inst)
    ensures var o := Step(sys, inst, 4 * i, s);
            var u := ArchStep(sys, Seen(s, i));
            && o.Running? == u.Running? && u.s.regs == o.s.regs && u.s.mem == o.s.mem
            && (o.Running? ==> u.s == if inst.IsTerminator() then Count(o.s, i + 1) else Seen(o.s, i + 1))
  {
    hide Step, Fetch, Seen, Count, Add, Wrap;
    StepSeen(sys, inst, i, s);
    SeenPcIs(s, i);
    var o := Step(sys, inst, 4 * i, s);
    var u := Step(sys, inst, 0, Seen(s, i));
    CountFacts(Advance(inst, u.s), 1);
    NextSeen(o.s, i);
    CountNext(o.s, i);
  }

  lemma SeenPcIs(s: GState, i: nat)
    ensures Seen(s, i).pc == Add(s.pc, Wrap(4 * i)) && Seen(s, i).mem == s.mem
  {
  }

  /** How a run of a trace from instruction i relates to the reference machine at i steps. */
  predicate EndsAlike(sys: Sys, n: nat, start: GState, o: Outcome) {
    match o
    case Running(t) => ArchRun(sys, start, n) == Running(Count(t, n))
    case Stopped(t) => exists k: nat :: k < n && StopsAfter(sys, start, k, t)
  }

  /** The reference machine stops at its step k with the registers and the memory of t. */
  predicate StopsAfter(sys: Sys, start: GState, k: nat, t: GState) {
    var o := ArchRun(sys, start, k);
    && o.Running? && ArchStep(sys, o.s).Stopped?
    && ArchStep(sys, o.s).s.regs == t.regs && ArchStep(sys, o.s).s.mem == t.mem
  }

  lemma ArchNext(sys: Sys, start: GState, i: nat)
    ensures ArchRun(sys, start, i).Running? ==> ArchRun(sys, start, i + 1) == ArchStep(sys, ArchRun(sys, start, i).s)
  {
  }

  lemma RunFromStep(sys: Sys, trace: seq<Inst>, i: nat, s: GState)
    requires IsTrace(trace) && i < |trace|
    ensures var o := Step(sys, trace[i], 4 * i, s);
            RunFrom(sys, trace, i, s) == if o.Running? && i + 1 < |trace| then RunFrom(sys, trace, i + 1, o.s) else o
    ensures trace[i].IsTerminator() <==> i + 1 == |trace|
  {
  }

  lemma SparesStep(sys: Sys, trace: seq<Inst>, i: nat, s: GState, code: set<nat>)
    requires IsTrace(trace) && i < |trace| && SparesCode(sys, trace, i, s, code)
    ensures var o := Step(sys, trace[i], 4 * i, s);
            && SameCode(s.mem, o.s.mem, code)
            && (o.Running? && i + 1 < |trace| ==> SparesCode(sys, trace, i + 1, o.s, code))
  {
  }

  lemma {:induction false} FromIsArch(sys: Sys, trace: seq<Inst>, i: nat, s: GState, start: GState, code: set<nat>)
    requires |start.mem| <= 0x1_0000_0000 && Build(start.mem, start.pc) == Some(trace) && IsTrace(trace) && i < |trace|
    requires Covers(code, start.pc, |trace|) && SparesCode(sys, trace, i, s, code) && SameCode(start.mem, s.mem, code)
    requires s.pc == start.pc && ArchRun(sys, start, i) == Running(Seen(s, i))
    ensures EndsAlike(sys, |trace|, start, RunFrom(sys, trace, i, s))
    decreases |trace| - i
  {
    hide *;
    var inst := trace[i];
    var o := Step(sys, inst, 4 * i, s);
    BuildFetches(start.mem, start.pc, i);
    AddInside(s.pc, 4 * i);
    SameFetch(start.mem, s.mem, code, start.pc, |trace|, i);
    StepIsArch(sys, inst, i, s);
    SparesStep(sys, trace, i, s, code);
    RunFromStep(sys, trace, i, s);
    ArchNext(sys, start, i);
    if o.Stopped? {
      Stops(sys, |trace|, start, i, o);
    } else if i + 1 == |trace| {
      Ends(sys, |trace|, start, o);
    } else {
      SameCodeTrans(start.mem, s.mem, o.s.mem, code);
      FromIsArch(sys, trace, i + 1, o.s, start, code);
    }
  }

  lemma Stops(sys: Sys, n: nat, start: GState, k: nat, o: Outcome)
    requires k < n && o.Stopped? && ArchRun(sys, start, k).Running?
    requires var u := ArchStep(sys, ArchRun(sys, start, k).s); u.Stopped? && u.s.regs == o.s.regs && u.s.mem == o.s.mem
    ensures EndsAlike(sys, n, start, o)
  {
    hide ArchRun, ArchStep;
    assert StopsAfter(sys, start, k, o.s);
  }

  lemma Ends(sys: Sys, n: nat, start: GState, o: Outcome)
    requires o.Running? && ArchRun(sys, start, n) == Running(Count(o.s, n))
    ensures EndsAlike(sys, n, start, o)
  {
  }

  /** Running a trace built at pc is as many steps of the reference machine as it has instructions, as
      long as it does not store into its own code; it throws exactly when the reference machine stops
      on the way, with the same registers and memory. */
  lemma TraceIsArch(sys: Sys, trace: seq<Inst>, s: GState, code: set<nat>)
    requires |s.mem| <= 0x1_0000_0000 && Build(s.mem, s.pc) == Some(trace) && IsTrace(trace)
    requires Covers(code, s.pc, |trace|) && SparesCode(sys, trace, 0, s, code)
    ensures var o := RunTrace(sys, trace, s);
            if o.Running? then ArchRun(sys, s, |trace|) == o
            else exists k: nat :: k < |trace| && StopsAfter(sys, s, k, o.s)
  {
    hide Step, RunFrom, ArchRun, Seen, Covers, Build, SparesCode, StopsAfter, SameCode;
    SeenAtHead(s);
    ArchStart(sys, s);
    SameCodeSelf(s.mem, code);
    FromIsArch(sys, trace, 0, s, s, code);
  }

  lemma SeenAtHead(s: GState)
    ensures Seen(s, 0) == s
  {
  }

  lemma ArchStart(sys: Sys, s: GState)
    ensures ArchRun(sys, s, 0) == Running(s)
  {
  }

  lemma SameCodeSelf(mem: seq<Byte>, code: set<nat>)
    ensures SameCode(mem, mem, code)
  {
  }

  // ----- where the simulator departs from the ISA text -----

  /** The JALR target of section 2.5 of the RISC-V Unprivileged ISA: rs1 is read before rd is written. */
  function IsaJalrTarget(i: Inst, s: GState): Word {
    And(Add(s.regs[i.rs1], i.imm), 0xFFFF_FFFE)
  }

  lemma ClearLowBit(x: Word)
    ensures And(x, 0xFFFF_FFFE) == x - x % 2
  {
    assert Pow2(10) == 1024;
    Pow2Add(10, 10);
    Pow2Add(20, 10);
    assert Pow2(31) == 2 * Pow2(30);
    BitAndMask(x / 2, 31);
    DivMod(x / 2, 0, 0x8000_0000, x / 2);
  }

  lemma TwoApart(x: Word, imm: Word)
    ensures And(Add(x, imm), 0xFFFF_FFFE) != And(Add(Add(x, 2), imm), 0xFFFF_FFFE)
  {
    hide And, Add;
    ClearLowBit(Add(x, imm));
    ClearLowBit(Add(Add(x, 2), imm));
    AddTwo(x, imm);
  }

  lemma AddTwo(x: Word, imm: Word)
    ensures var u := Add(x, imm); Add(Add(x, 2), imm) == if u + 2 < 0x1_0000_0000 then u + 2 else u + 2 - 0x1_0000_0000
  {
  }

  /** The simulator writes the link register first, so it jumps where the ISA says in every state exactly
      when that write cannot change rs1. */
  lemma JalrFollowsIsa(sys: Sys, i: Inst)
    requires i.cmd == JALR
    ensures (forall s: GState :: Step(sys, i, 0, s).s.pc == IsaJalrTarget(i, s)) <==> i.rd == 0 || i.rd != i.rs1
  {
    hide And;
    if i.rd != 0 && i.rd == i.rs1 {
      JalrDeparts(sys, i);
    }
  }

  lemma JalrAtZero(sys: Sys, i: Inst, s: GState)
    requires i.cmd == JALR && i.rd != 0 && i.rd == i.rs1 && s.pc == 0
    ensures Step(sys, i, 0, s).s.pc == And(Add(4, i.imm), 0xFFFF_FFFE)
  {
    hide And, Add, Wrap, Signed, LoadBytes, StoreBytes, Extend, SetReg, ImmResult, RegResult, BranchTaken, SysCall, AccessSize;
    LinkAtZero();
    assert Step(sys, i, 0, s) == Running(JalrLinked(i, SetReg(s, i.rd, 4)));
  }

  function JalrLinked(i: Inst, t: GState): GState {
    t.(pc := And(Add(t.regs[i.rs1], i.imm), 0xFFFF_FFFE))
  }

  lemma LinkAtZero()
    ensures Add(0, Wrap(0)) == 0 && Add(0, 4) == 4
  {
  }

  lemma JalrDeparts(sys: Sys, i: Inst)
    requires i.cmd == JALR && i.rd != 0 && i.rd == i.rs1
    ensures exists s: GState :: Step(sys, i, 0, s).s.pc != IsaJalrTarget(i, s)
  {
    hide And, Step;
    var s: GState := StateRep(seq(32, r => if r == i.rs1 then 6 else 0), 0, [], 0);
    TwoApart(4, i.imm);
    JalrAtZero(sys, i, s);
    assert Add(4, 2) == 6;
    assert Step(sys, i, 0, s).s.pc != IsaJalrTarget(i, s);
  }
}
