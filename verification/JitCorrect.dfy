/** Whole-trace compiler correctness: native code against passes of the interpreter. */
module JitCorrect {
  import opened Words
  import opened Isa
  import opened Guest
  import opened Host
  import opened Alloc
  import opened Templates
  import opened TemplateLaws
  import opened TemplateCorrect
  import opened Compiler

  // ----- what a pass needs and where it leaves -----

  /** The operands of every instruction a pass executes are acceptable to native code. */
  predicate SafeFrom(sys: Sys, trace: seq<Inst>, i: nat, s: GState)
    requires IsTrace(trace) && i < |trace|
    decreases |trace| - i
  {
    && OperandsOk(trace[i], s)
    && (i + 1 < |trace| ==>
          var o := Step(sys, trace[i], 4 * i, s);
          o.Running? && SafeFrom(sys, trace, i + 1, o.s))
  }

  /** The branch at offset off goes back to the trace head, in guest state s. */
  predicate GoesBack(i: Inst, off: nat, s: GState) {
    OpcodeOf(i.cmd) == OpBranch && TakenOffset(off, i.imm) == 0 && BranchTaken(i.cmd, s.regs[i.rs1], s.regs[i.rs2])
  }

  /** A pass from instruction i on ends with a branch back to the trace head. */
  predicate BackEdgeFrom(sys: Sys, trace: seq<Inst>, i: nat, s: GState)
    requires IsTrace(trace) && i < |trace|
    decreases |trace| - i
  {
    if i + 1 == |trace| then GoesBack(trace[i], 4 * i, s)
    else
      match Step(sys, trace[i], 4 * i, s)
      case Running(t) => BackEdgeFrom(sys, trace, i + 1, t)
      case Stopped(_) => false
  }

  // ----- straight-line code under the control semantics -----

  lemma {:induction false} OkStays(code: seq<Instr>, m: Machine)
    requires Run(code, m).ok
    ensures m.ok
    decreases |code|
  {
    if code != [] {
      OkStays(code[1..], Exec(code[0], m));
      ExecOk(code[0], m);
    }
  }

  lemma ExecOk(i: Instr, m: Machine)
    requires Exec(i, m).ok
    ensures m.ok
  {
  }

  /** `code` stands at position p. */
  predicate StandsAt(full: seq<Instr>, p: nat, code: seq<Instr>) {
    p + |code| <= |full| && full[p..p + |code|] == code
  }

  lemma StandsApart(full: seq<Instr>, p: nat, x: seq<Instr>, y: seq<Instr>)
    requires StandsAt(full, p, x + y)
    ensures StandsAt(full, p, x) && StandsAt(full, p + |x|, y)
  {
    assert full[p..p + |x|] == (x + y)[..|x|];
    assert full[p + |x|..p + |x| + |y|] == (x + y)[|x|..];
  }

  lemma {:induction false} StraightReaches(full: seq<Instr>, p: nat, code: seq<Instr>, m: Machine)
    requires StandsAt(full, p, code) && Straight(code) && Run(code, m).ok
    ensures Reaches(full, At(p, m), At(p + |code|, Run(code, m)))
    decreases |code|
  {
    if code == [] {
      assert Steps(full, At(p, m), 0) == At(p, m);
    } else {
      OkStays(code, m);
      assert full[p] == code[0];
      StandsApart(full, p, [code[0]], code[1..]);
      NextStraight(full, p, m);
      ReachesNext(full, At(p, m));
      StraightReaches(full, p + 1, code[1..], Exec(code[0], m));
      ReachesTrans(full, At(p, m), At(p + 1, Exec(code[0], m)), At(p + |code|, Run(code, m)));
    }
  }

  lemma StraightTwice(full: seq<Instr>, p: nat, x: seq<Instr>, y: seq<Instr>, m: Machine)
    requires StandsAt(full, p, x + y) && Straight(x) && Straight(y) && Run(y, Run(x, m)).ok
    ensures Reaches(full, At(p, m), At(p + |x| + |y|, Run(y, Run(x, m)))) && Straight(x + y)
  {
    hide Run, Reaches, StandsAt;
    RunAppend(x, y, m);
    StraightReaches(full, p, x + y, m);
  }

  lemma RepOk(a: Allocation, s: GState, m: Machine, skip: int)
    requires Rep(a, s, m, skip)
    ensures m.ok
  {
  }

  lemma NextStraight(full: seq<Instr>, p: nat, m: Machine)
    requires p < |full| && m.ok && !IsJump(full[p])
    ensures Next(full, At(p, m)) == At(p + 1, Exec(full[p], m))
  {
  }

  lemma {:induction false} TargetIs(full: seq<Instr>, l: LabelId, j: nat)
    requires j < |full| && full[j] == Bind(l) && forall k :: 0 <= k < j ==> full[k] != Bind(l)
    ensures Target(full, l) == j
    decreases j
  {
    if j > 0 {
      TargetIs(full[1..], l, j - 1);
    }
  }

  // ----- one instruction with its allocation work -----

  lemma InstSound(sys: Sys, trace: seq<Inst>, i: nat, a: Allocation, s: GState, m: Machine)
    requires i < |trace| && trace[i].IsTranslationSupported() && OpcodeOf(trace[i].cmd) != OpBranch
    requires Inv(a) && Rep(a, s, m, 0) && MappedIn(a, LiveBefore(trace[i], LiveAfter(trace, i))) && Fits(m)
    requires TemplateOk(PreWork(a, trace[i], LiveAfter(trace, i)).a, trace[i]) && OperandsOk(trace[i], s)
    ensures var o, c := Step(sys, trace[i], 4 * i, s), CompileInst(trace, i, a);
      && o.Running? && Straight(c.code) && Inv(c.a) && MappedIn(c.a, LiveAfter(trace, i))
      && Rep(c.a, o.s, Run(c.code, m), 0) && Run(c.code, m).base == m.base
  {
    hide *;
    var live, inst := LiveAfter(trace, i), trace[i];
    var all := LiveBefore(inst, live) + live;
    var pre := PreWork(a, inst, live);
    var body := PlainCode(pre.a, inst, 4 * i);
    var post := PostWork(pre.a, inst, live);
    MoreMapped(a, LiveBefore(inst, live), all);
    CompilePlain(trace, i, a);
    StraightBoth(pre.code, body);
    StraightBoth(pre.code + body, post.code);
    var skip := PreWorkSound(a, inst, live, s, m, all);
    var m1 := Run(pre.code, m);
    var m2 := Run(body, m1);
    FitsStays(a, pre.a, s, m, s, m1, skip);
    PlainCorrect(sys, pre.a, inst, 4 * i, s, m1, skip);
    PostWorkMaps(pre.a, inst, live);
    PostWorkSound(pre.a, inst, live, Step(sys, inst, 4 * i, s).s, m2);
    Run3(pre.code, body, post.code, m);
  }

  lemma MoreMapped(a: Allocation, live: set<Reg>, all: set<Reg>)
    requires MappedIn(a, live) && live <= all
    ensures MappedIn(a, all)
  {
  }

  lemma CompilePlain(trace: seq<Inst>, i: nat, a: Allocation)
    requires i < |trace| && OpcodeOf(trace[i].cmd) != OpBranch
    ensures var pre := PreWork(a, trace[i], LiveAfter(trace, i));
      var post := PostWork(pre.a, trace[i], LiveAfter(trace, i));
      CompileInst(trace, i, a) == Coded(pre.code + PlainCode(pre.a, trace[i], 4 * i) + post.code, post.a)
  {
  }

  lemma FitsStays(a: Allocation, b: Allocation, s: GState, m: Machine, t: GState, n: Machine, skip: int)
    requires Rep(a, s, m, 0) && Rep(b, t, n, skip) && |s.mem| == |t.mem| && n.base == m.base && Fits(m)
    ensures Fits(n)
  {
  }

  // ----- the conditional branch that ends a trace -----

  /** The compiled function around position p: its start is bound at 0, no label is bound between. */
  predicate Opens(full: seq<Instr>, p: nat) {
    0 < p <= |full| && full[0] == Bind(START) && forall k :: 0 < k < p ==> !full[k].Bind?
  }

  lemma OpensPast(full: seq<Instr>, p: nat, code: seq<Instr>)
    requires Opens(full, p) && StandsAt(full, p, code) && Straight(code)
    ensures Opens(full, p + |code|)
  {
  }

  /** add pc, k */
  function PcPlus(m: Machine, k: int): Machine {
    Exec(Bin(AddB, PcField, Imm(k)), m)
  }

  lemma PcPlusSound(a: Allocation, s: GState, m: Machine, k: int)
    requires Inv(a) && Rep(a, s, m, 0)
    ensures Rep(a, s.(pc := Add(s.pc, Wrap(k))), PcPlus(m, k), 0) && PcPlus(m, k).base == m.base
  {
  }

  lemma ExitTailItems(full: seq<Instr>, p: nat, c: Cond, off: nat, imm: Word)
    requires StandsAt(full, p, ExitTail(c, off, imm))
    ensures p + 6 <= |full| && full[p] == Jcc(c, TAKEN)
    ensures full[p + 1] == Bin(AddB, PcField, Imm(off + 4)) && full[p + 2] == Jmp(EXIT) && full[p + 3] == Bind(TAKEN)
    ensures full[p + 4] == Bin(AddB, PcField, Imm(TakenOffset(off, imm))) && full[p + 5] == Bind(EXIT)
  {
  }

  lemma NextItem(full: seq<Instr>, p: nat, m: Machine)
    requires p < |full| && m.ok
    ensures full[p].Jmp? ==> Next(full, At(p, m)) == At(Target(full, full[p].target), m)
    ensures full[p].Jcc? && m.flags.Known? ==>
              Next(full, At(p, m)) == At(if Holds(full[p].cond, m.flags) then Target(full, full[p].target) else p + 1, m)
    ensures full[p].Bin? || full[p].Bind? ==> Next(full, At(p, m)) == At(p + 1, Exec(full[p], m))
  {
  }

  /** Both ways through the tail of a branch that leaves the trace end just after it. */
  lemma ExitTailRuns(full: seq<Instr>, p: nat, c: Cond, off: nat, imm: Word, m: Machine)
    requires Opens(full, p) && StandsAt(full, p, ExitTail(c, off, imm)) && m.ok && m.flags.Known?
    ensures Reaches(full, At(p, m), At(p + 6, PcPlus(m, if Holds(c, m.flags) then TakenOffset(off, imm) else off + 4)))
  {
    hide Exec, Holds, Target, ExitTail, TakenOffset, Opens, StandsAt, Steps, Next, PcPlus, Reaches;
    var k := if Holds(c, m.flags) then TakenOffset(off, imm) else off + 4;
    var add := Bin(AddB, PcField, Imm(k));
    var m1 := Exec(add, m);
    ExitTailItems(full, p, c, off, imm);
    ExitTargets(full, p, c, off, imm);
    AddKeepsOk(PcField, m, Imm(k));
    PcPlusIs(m, k);
    BindIsNop(TAKEN, m);
    BindIsNop(EXIT, m1);
    NextItem(full, p, m);
    NextItem(full, p + 5, m1);
    if Holds(c, m.flags) {
      NextItem(full, p + 3, m);
      NextItem(full, p + 4, m);
    } else {
      NextItem(full, p + 1, m);
      NextItem(full, p + 2, m1);
    }
    FourSteps(full, At(p, m));
  }

  lemma ExitTargets(full: seq<Instr>, p: nat, c: Cond, off: nat, imm: Word)
    requires Opens(full, p) && StandsAt(full, p, ExitTail(c, off, imm))
    ensures Target(full, TAKEN) == p + 3 && Target(full, EXIT) == p + 5
  {
    ExitTailItems(full, p, c, off, imm);
    hide ExitTail, TakenOffset, StandsAt, Target;
    TargetIs(full, TAKEN, p + 3);
    TargetIs(full, EXIT, p + 5);
  }

  lemma PcPlusIs(m: Machine, k: int)
    ensures PcPlus(m, k) == Exec(Bin(AddB, PcField, Imm(k)), m)
  {
  }

  lemma BindIsNop(l: LabelId, m: Machine)
    ensures Exec(Bind(l), m) == m
  {
  }

  lemma AddKeepsOk(d: Operand, m: Machine, k: Operand)
    ensures Exec(Bin(AddB, d, k), m).ok == m.ok
  {
  }

  lemma FourSteps(full: seq<Instr>, c: Control)
    ensures Reaches(full, c, Next(full, Next(full, Next(full, Next(full, c)))))
  {
    hide Next, Reaches;
    TwoSteps(full, c);
    TwoSteps(full, Next(full, Next(full, c)));
    ReachesTrans(full, c, Next(full, Next(full, c)), Next(full, Next(full, Next(full, Next(full, c)))));
  }

  lemma TwoSteps(full: seq<Instr>, c: Control)
    ensures Reaches(full, c, Next(full, Next(full, c)))
  {
    hide Next, Reaches;
    ReachesNext(full, c);
    ReachesNext(full, Next(full, c));
    ReachesTrans(full, c, Next(full, c), Next(full, Next(full, c)));
  }

  /** The tail of a branch to the trace head: back to the start, or past the tail. */
  lemma LoopTailRuns(full: seq<Instr>, p: nat, c: Cond, off: nat, m: Machine)
    requires Opens(full, p) && StandsAt(full, p, LoopTail(c, off)) && m.ok && m.flags.Known?
    ensures Reaches(full, At(p, m), if Holds(c, m.flags) then At(0, m) else At(p + 2, PcPlus(m, off + 4)))
  {
    var notTaken, tail := Bin(AddB, PcField, Imm(off + 4)), LoopTail(c, off);
    assert tail == [Jcc(c, START), notTaken];
    assert full[p] == tail[0] && full[p + 1] == tail[1];
    assert Target(full, START) == 0;
    hide Exec, Holds, Target, LoopTail, Steps;
    if Holds(c, m.flags) {
      assert Next(full, At(p, m)) == At(0, m);
      ReachesNext(full, At(p, m));
    } else {
      assert Next(full, At(p, m)) == At(p + 1, m);
      assert Next(full, At(p + 1, m)) == At(p + 2, Exec(notTaken, m));
      TwoSteps(full, At(p, m));
    }
  }

  /** The compare in front of a branch: flags that answer the guest's comparison. */
  lemma BranchCompare(a: Allocation, i: Inst, s: GState, m: Machine)
    requires Inv(a) && Rep(a, s, m, 0) && OpcodeOf(i.cmd) == OpBranch
    ensures var n := Run(Compare(RegOpnd(a, i.rs1), RegOpnd(a, i.rs2)), m);
      && Rep(a, s, n, 0) && n.base == m.base && n.flags.Known?
      && (Holds(BranchCond(i.cmd), n.flags) <==> BranchTaken(i.cmd, s.regs[i.rs1], s.regs[i.rs2]))
  {
    hide Run, Compare, Rep, Holds, RegOpnd;
    var s1, s2 := RegOpnd(a, i.rs1), RegOpnd(a, i.rs2);
    PlacesOk(a, i.rs1);
    PlacesOk(a, i.rs2);
    ReadsTheGuest(a, s, m, 0, i.rs1);
    ReadsTheGuest(a, s, m, 0, i.rs2);
    CompareComputes(s1, s2, m);
    TempsAreFree(a, s, m, Run(Compare(s1, s2), m), 0);
    ConditionsAfterCompare(s.regs[i.rs1], s.regs[i.rs2]);
  }

  /** Guest state after a branch. */
  lemma BranchStep(sys: Sys, i: Inst, off: nat, s: GState)
    requires OpcodeOf(i.cmd) == OpBranch
    ensures var taken := BranchTaken(i.cmd, s.regs[i.rs1], s.regs[i.rs2]);
      Step(sys, i, off, s)
      == Running(s.(pc := Add(s.pc, Wrap(if taken then TakenOffset(off, i.imm) else off + 4))))
  {
    hide BranchTaken, Add, Wrap;
    PcSum(s.pc, off, 4);
    PcSum(s.pc, off, 2 * Signed(i.imm));
    AddIsWrap(Add(s.pc, Wrap(off)), 4);
  }

  // ----- the last instruction of a trace -----

  /** After the last instruction everything is written back, and the function returns. */
  lemma TraceReturns(full: seq<Instr>, p: nat, a: Allocation, i: Inst, s: GState, m: Machine) returns (r: Machine)
    requires Inv(a) && Rep(a, s, m, 0) && MappedIn(a, LiveBefore(i, {}))
    requires StandsAt(full, p, PostWork(a, i, {}).code + [Ret])
    ensures Reaches(full, At(p, m), Returned(r)) && r.g == s && r.base == m.base
  {
    hide *;
    var post := PostWork(a, i, {});
    r := Run(post.code, m);
    assert LiveBefore(i, {}) + {} == LiveBefore(i, {});
    PostWorkMaps(a, i, {});
    PostWorkSound(a, i, {}, s, m);
    NothingMapped(post.a, s, r);
    StandsApart(full, p, post.code, [Ret]);
    RetReturns(full, p + |post.code|, r);
    StraightReaches(full, p, post.code, m);
    ReachesTrans(full, At(p, m), At(p + |post.code|, r), Returned(r));
  }

  lemma RetReturns(full: seq<Instr>, p: nat, m: Machine)
    requires StandsAt(full, p, [Ret]) && m.ok
    ensures Reaches(full, At(p, m), Returned(m))
  {
    assert full[p] == Ret;
    ReachesNext(full, At(p, m));
  }

  lemma NothingMapped(a: Allocation, s: GState, m: Machine)
    requires Inv(a) && Rep(a, s, m, 0) && MappedIn(a, {})
    ensures m.g == s && m.ok
  {
  }

  lemma NoPreWork(a: Allocation, i: Inst)
    ensures PreWork(a, i, {}) == Coded([], a)
  {
  }

  lemma BranchShape(a: Allocation, i: Inst, off: nat)
    requires OpcodeOf(i.cmd) == OpBranch
    ensures var cmp, c, all := Compare(RegOpnd(a, i.rs1), RegOpnd(a, i.rs2)), BranchCond(i.cmd), DeallocateFrom(a, 1);
      && |ExitTail(c, off, i.imm)| == 6 && |LoopTail(c, off)| == 2
      && BranchCode(a, i, off)
         == if TakenOffset(off, i.imm) != 0 then Coded(cmp + ExitTail(c, off, i.imm), a)
            else Coded(cmp + all.code + LoopTail(c, off), all.a)
  {
    hide Compare, DeallocateFrom, ExitTail, LoopTail;
    var c := BranchCond(i.cmd);
    TailLengths(c, off, i.imm);
  }

  lemma TailLengths(c: Cond, off: nat, imm: Word)
    ensures |ExitTail(c, off, imm)| == 6 && |LoopTail(c, off)| == 2
  {
  }

  /** A taken branch to the head leaves pc where it is. */
  lemma BackToHead(i: Inst, off: nat, s: GState)
    requires OpcodeOf(i.cmd) == OpBranch && TakenOffset(off, i.imm) == 0
    ensures GoesBack(i, off, s) == BranchTaken(i.cmd, s.regs[i.rs1], s.regs[i.rs2])
    ensures s.(pc := Add(s.pc, Wrap(TakenOffset(off, i.imm)))) == s
  {
    hide BranchTaken;
    assert Add(s.pc, 0) == s.pc;
  }

  /** A branch that leaves the trace: both ways control gets past it with the interpreter's state. */
  lemma ExitBranchRuns(sys: Sys, full: seq<Instr>, p: nat, a: Allocation, i: Inst, off: nat, s: GState, m: Machine)
      returns (m2: Machine)
    requires OpcodeOf(i.cmd) == OpBranch && Inv(a) && Rep(a, s, m, 0) && Opens(full, p)
    requires StandsAt(full, p, Compare(RegOpnd(a, i.rs1), RegOpnd(a, i.rs2)) + ExitTail(BranchCond(i.cmd), off, i.imm))
    ensures Reaches(full, At(p, m), At(p + |Compare(RegOpnd(a, i.rs1), RegOpnd(a, i.rs2))| + 6, m2))
    ensures Rep(a, Step(sys, i, off, s).s, m2, 0) && m2.base == m.base
  {
    hide *;
    var cmp, c := Compare(RegOpnd(a, i.rs1), RegOpnd(a, i.rs2)), BranchCond(i.cmd);
    var m1 := Run(cmp, m);
    var k := if BranchTaken(i.cmd, s.regs[i.rs1], s.regs[i.rs2]) then TakenOffset(off, i.imm) else off + 4;
    m2 := PcPlus(m1, k);
    BranchCompare(a, i, s, m);
    RepOk(a, s, m1, 0);
    BranchStep(sys, i, off, s);
    PcPlusSound(a, s, m1, k);
    StandsApart(full, p, cmp, ExitTail(c, off, i.imm));
    OpensPast(full, p, cmp);
    StraightReaches(full, p, cmp, m);
    ExitTailRuns(full, p + |cmp|, c, off, i.imm, m1);
    ReachesTrans(full, At(p, m), At(p + |cmp|, m1), At(p + |cmp| + 6, m2));
  }

  lemma ExitBranchEnds(sys: Sys, full: seq<Instr>, p: nat, a: Allocation, i: Inst, off: nat, s: GState, m: Machine)
      returns (r: Machine)
    requires OpcodeOf(i.cmd) == OpBranch && TakenOffset(off, i.imm) != 0
    requires Inv(a) && Rep(a, s, m, 0) && MappedIn(a, LiveBefore(i, {})) && Opens(full, p)
    requires StandsAt(full, p, BranchCode(a, i, off).code + (PostWork(a, i, {}).code + [Ret]))
    ensures Reaches(full, At(p, m), Returned(r)) && r.g == Step(sys, i, off, s).s && r.base == m.base
  {
    hide *;
    var code := BranchCode(a, i, off).code;
    var q := p + |code|;
    BranchShape(a, i, off);
    StandsApart(full, p, code, PostWork(a, i, {}).code + [Ret]);
    var m2 := ExitBranchRuns(sys, full, p, a, i, off, s, m);
    r := TraceReturns(full, q, a, i, Step(sys, i, off, s).s, m2);
    ReachesTrans(full, At(p, m), At(q, m2), Returned(r));
  }

  /** The write-backs between the compare and the jump keep the flags and empty the mapping. */
  lemma LoopFront(full: seq<Instr>, p: nat, a: Allocation, i: Inst, s: GState, m: Machine) returns (m2: Machine)
    requires OpcodeOf(i.cmd) == OpBranch && Inv(a) && Rep(a, s, m, 0)
    requires StandsAt(full, p, Compare(RegOpnd(a, i.rs1), RegOpnd(a, i.rs2)) + DeallocateFrom(a, 1).code)
    ensures var all := DeallocateFrom(a, 1);
      && Reaches(full, At(p, m), At(p + |Compare(RegOpnd(a, i.rs1), RegOpnd(a, i.rs2))| + |all.code|, m2))
      && Inv(all.a) && (forall r :: !Mapped(all.a, r)) && Rep(all.a, s, m2, 0) && m2.base == m.base && m2.flags.Known?
      && (Holds(BranchCond(i.cmd), m2.flags) <==> BranchTaken(i.cmd, s.regs[i.rs1], s.regs[i.rs2]))
      && m2.ok && m2.g == s && Straight(all.code)
  {
    hide *;
    var cmp, all := Compare(RegOpnd(a, i.rs1), RegOpnd(a, i.rs2)), DeallocateFrom(a, 1);
    var m1 := Run(cmp, m);
    m2 := Run(all.code, m1);
    BranchCompare(a, i, s, m);
    EveryRegister(a);
    DeallocateFromSound(a, 1, s, m1);
    SlotsAreTheState(all.a, s, m2);
    RepOk(all.a, s, m2, 0);
    StraightTwice(full, p, cmp, all.code, m);
  }

  lemma EveryRegister(a: Allocation)
    ensures forall t :: Mapped(a, t) ==> t >= 1
  {
  }

  /** A branch to the trace head: taken, it re-enters the function with every register in its slot. */
  lemma LoopBranchRuns(sys: Sys, full: seq<Instr>, p: nat, a: Allocation, i: Inst, off: nat, s: GState, m: Machine)
      returns (m2: Machine)
    requires OpcodeOf(i.cmd) == OpBranch && TakenOffset(off, i.imm) == 0
    requires Inv(a) && Rep(a, s, m, 0) && Opens(full, p)
    requires StandsAt(full, p, Compare(RegOpnd(a, i.rs1), RegOpnd(a, i.rs2)) + DeallocateFrom(a, 1).code
                               + LoopTail(BranchCond(i.cmd), off))
    ensures var all := DeallocateFrom(a, 1);
      var t, front := Step(sys, i, off, s).s, |Compare(RegOpnd(a, i.rs1), RegOpnd(a, i.rs2))| + |all.code|;
      && Inv(all.a) && MappedIn(all.a, LiveBefore(i, {})) && m2.base == m.base
      && if GoesBack(i, off, s) then Reaches(full, At(p, m), At(0, m2)) && m2.g == t && m2.ok
         else Reaches(full, At(p, m), At(p + front + 2, m2)) && Rep(all.a, t, m2, 0)
  {
    hide *;
    var cmp, cond := Compare(RegOpnd(a, i.rs1), RegOpnd(a, i.rs2)), BranchCond(i.cmd);
    var all := DeallocateFrom(a, 1);
    var front := cmp + all.code;
    BranchStep(sys, i, off, s);
    BackToHead(i, off, s);
    StandsApart(full, p, front, LoopTail(cond, off));
    var m1 := LoopFront(full, p, a, i, s, m);
    NoneMapped(all.a, LiveBefore(i, {}));
    StraightBoth(cmp, all.code);
    OpensPast(full, p, front);
    LoopTailRuns(full, p + |front|, cond, off, m1);
    m2 := if GoesBack(i, off, s) then m1 else PcPlus(m1, off + 4);
    PcPlusSound(all.a, s, m1, off + 4);
    ReachesTrans(full, At(p, m), At(p + |front|, m1), if GoesBack(i, off, s) then At(0, m1) else At(p + |front| + 2, m2));
  }

  lemma LoopBranchEnds(sys: Sys, full: seq<Instr>, p: nat, a: Allocation, i: Inst, off: nat, s: GState, m: Machine)
      returns (c: Control)
    requires OpcodeOf(i.cmd) == OpBranch && TakenOffset(off, i.imm) == 0
    requires Inv(a) && Rep(a, s, m, 0) && Opens(full, p)
    requires StandsAt(full, p, BranchCode(a, i, off).code + (PostWork(BranchCode(a, i, off).a, i, {}).code + [Ret]))
    ensures Reaches(full, At(p, m), c) && PassEnd(c, GoesBack(i, off, s), Step(sys, i, off, s).s, m.base)
  {
    hide *;
    var b := BranchCode(a, i, off);
    BranchShape(a, i, off);
    StandsApart(full, p, b.code, PostWork(b.a, i, {}).code + [Ret]);
    var m2 := LoopBranchRuns(sys, full, p, a, i, off, s, m);
    var t := Step(sys, i, off, s).s;
    if GoesBack(i, off, s) {
      c := At(0, m2);
      EndsBack(m2, t, m.base);
    } else {
      var q := p + |b.code|;
      var r := TraceReturns(full, q, b.a, i, t, m2);
      c := Returned(r);
      ReachesTrans(full, At(p, m), At(q, m2), c);
      EndsReturned(r, t, m.base);
    }
  }

  /** How a pass ends: at the start of the function again, or returned, with guest state t. */
  predicate PassEnd(c: Control, back: bool, t: GState, base: nat) {
    if back then c.At? && c.ip == 0 && c.m.ok && c.m.g == t && c.m.base == base
    else c.Returned? && c.m.g == t && c.m.base == base
  }

  lemma EndsBack(m: Machine, t: GState, base: nat)
    requires m.ok && m.g == t && m.base == base
    ensures PassEnd(At(0, m), true, t, base)
  {
  }

  lemma EndsReturned(m: Machine, t: GState, base: nat)
    requires m.g == t && m.base == base
    ensures PassEnd(Returned(m), false, t, base)
  {
  }

  lemma NoneMapped(a: Allocation, live: set<Reg>)
    requires forall r :: !Mapped(a, r)
    ensures MappedIn(a, live)
  {
  }

  lemma StraightBoth(x: seq<Instr>, y: seq<Instr>)
    requires Straight(x) && Straight(y)
    ensures Straight(x + y)
  {
  }

  // ----- one pass over the trace -----

  lemma TraceFacts(trace: seq<Inst>, i: nat)
    requires IsTrace(trace) && Supported(trace) && i < |trace|
    ensures trace[i].IsTranslationSupported()
    ensures i + 1 < |trace| ==> !trace[i].IsTerminator() && OpcodeOf(trace[i].cmd) != OpBranch
    ensures i + 1 < |trace| ==> LiveAfter(trace, i) == LiveBefore(trace[i + 1], LiveAfter(trace, i + 1))
    ensures i + 1 == |trace| ==> trace[i].IsTerminator() && LiveAfter(trace, i) == {}
  {
  }

  lemma RunFromLast(sys: Sys, trace: seq<Inst>, i: nat, s: GState)
    requires IsTrace(trace) && i + 1 == |trace| && Step(sys, trace[i], 4 * i, s).Running?
    ensures RunFrom(sys, trace, i, s) == Step(sys, trace[i], 4 * i, s)
    ensures BackEdgeFrom(sys, trace, i, s) == GoesBack(trace[i], 4 * i, s)
  {
    hide Step;
  }

  lemma RunFromMore(sys: Sys, trace: seq<Inst>, i: nat, s: GState)
    requires IsTrace(trace) && i + 1 < |trace| && Step(sys, trace[i], 4 * i, s).Running?
    ensures var t := Step(sys, trace[i], 4 * i, s).s;
      && RunFrom(sys, trace, i, s) == RunFrom(sys, trace, i + 1, t)
      && BackEdgeFrom(sys, trace, i, s) == BackEdgeFrom(sys, trace, i + 1, t)
      && (SafeFrom(sys, trace, i, s) ==> SafeFrom(sys, trace, i + 1, t))
  {
  }

  /** Everything the passes rely on at the boundary before instruction i. */
  ghost predicate Boundary(sys: Sys, trace: seq<Inst>, full: seq<Instr>, i: nat, a: Allocation, p: nat, s: GState, m: Machine)
    requires IsTrace(trace) && i < |trace|
  {
    && GuardsFrom(trace, i, a) && SafeFrom(sys, trace, i, s)
    && Inv(a) && Rep(a, s, m, 0) && MappedIn(a, LiveBefore(trace[i], LiveAfter(trace, i))) && Fits(m)
    && Opens(full, p) && StandsAt(full, p, CompileFrom(trace, i, a) + [Ret])
  }

  /** The last instruction when it is a jump: straight-line code, then return. */
  lemma JumpEnds(sys: Sys, trace: seq<Inst>, full: seq<Instr>, i: nat, a: Allocation, p: nat, s: GState, m: Machine)
      returns (c: Control)
    requires IsTrace(trace) && Supported(trace) && i + 1 == |trace| && OpcodeOf(trace[i].cmd) != OpBranch
    requires Boundary(sys, trace, full, i, a, p, s, m)
    ensures Reaches(full, At(p, m), c)
    ensures Step(sys, trace[i], 4 * i, s).Running?
    ensures PassEnd(c, GoesBack(trace[i], 4 * i, s), Step(sys, trace[i], 4 * i, s).s, m.base)
  {
    hide *;
    var code, t := CompileInst(trace, i, a), Step(sys, trace[i], 4 * i, s).s;
    var m2 := Run(code.code, m);
    TraceFacts(trace, i);
    CompileFromLast(trace, i, a);
    NoBranchBack(trace[i], 4 * i, s);
    BoundaryFacts(sys, trace, full, i, a, p, s, m);
    InstSound(sys, trace, i, a, s, m);
    NothingMapped(code.a, t, m2);
    StandsApart(full, p, code.code, [Ret]);
    StraightReaches(full, p, code.code, m);
    RetReturns(full, p + |code.code|, m2);
    c := Returned(m2);
    ReachesTrans(full, At(p, m), At(p + |code.code|, m2), c);
    EndsReturned(m2, t, m.base);
  }

  lemma NoBranchBack(i: Inst, off: nat, s: GState)
    requires OpcodeOf(i.cmd) != OpBranch
    ensures !GoesBack(i, off, s)
  {
  }

  lemma BoundaryFacts(sys: Sys, trace: seq<Inst>, full: seq<Instr>, i: nat, a: Allocation, p: nat, s: GState, m: Machine)
    requires IsTrace(trace) && i < |trace| && Boundary(sys, trace, full, i, a, p, s, m)
    ensures Inv(a) && Rep(a, s, m, 0) && MappedIn(a, LiveBefore(trace[i], LiveAfter(trace, i))) && Fits(m)
    ensures TemplateOk(PreWork(a, trace[i], LiveAfter(trace, i)).a, trace[i]) && OperandsOk(trace[i], s)
    ensures Opens(full, p) && StandsAt(full, p, CompileFrom(trace, i, a) + [Ret])
  {
    hide Inv, Rep, MappedIn, Fits, TemplateOk, OperandsOk, Opens, StandsAt, PreWork, CompileInst;
  }

  /** The last instruction when it is a conditional branch. */
  lemma BranchEnds(sys: Sys, trace: seq<Inst>, full: seq<Instr>, i: nat, a: Allocation, p: nat, s: GState, m: Machine)
      returns (c: Control)
    requires IsTrace(trace) && Supported(trace) && i + 1 == |trace| && OpcodeOf(trace[i].cmd) == OpBranch
    requires Boundary(sys, trace, full, i, a, p, s, m)
    ensures Reaches(full, At(p, m), c)
    ensures Step(sys, trace[i], 4 * i, s).Running?
    ensures PassEnd(c, GoesBack(trace[i], 4 * i, s), Step(sys, trace[i], 4 * i, s).s, m.base)
  {
    hide *;
    var inst, off := trace[i], 4 * i;
    TraceFacts(trace, i);
    BoundaryFacts(sys, trace, full, i, a, p, s, m);
    CompileBranch(trace, i, a);
    BranchStep(sys, inst, off, s);
    var t := Step(sys, inst, off, s).s;
    if TakenOffset(off, inst.imm) != 0 {
      BranchShape(a, inst, off);
      var r := ExitBranchEnds(sys, full, p, a, inst, off, s, m);
      c := Returned(r);
      NotBack(inst, off, s);
      EndsReturned(r, t, m.base);
    } else {
      c := LoopBranchEnds(sys, full, p, a, inst, off, s, m);
    }
  }

  lemma NotBack(i: Inst, off: nat, s: GState)
    requires TakenOffset(off, i.imm) != 0
    ensures !GoesBack(i, off, s)
  {
  }

  lemma CompileBranch(trace: seq<Inst>, i: nat, a: Allocation)
    requires i + 1 == |trace| && OpcodeOf(trace[i].cmd) == OpBranch
    ensures var b := BranchCode(a, trace[i], 4 * i);
      CompileFrom(trace, i, a) + [Ret] == b.code + (PostWork(b.a, trace[i], {}).code + [Ret])
  {
    CompileInstLast(trace, i, a);
    hide *;
    var b := BranchCode(a, trace[i], 4 * i);
    var post := PostWork(b.a, trace[i], {}).code;
    CompileFromLast(trace, i, a);
    Assoc(b.code, post, [Ret]);
  }

  lemma CompileInstLast(trace: seq<Inst>, i: nat, a: Allocation)
    requires i + 1 == |trace| && OpcodeOf(trace[i].cmd) == OpBranch
    ensures var b := BranchCode(a, trace[i], 4 * i);
      CompileInst(trace, i, a).code == b.code + PostWork(b.a, trace[i], {}).code
  {
    CompileBranchInst(trace, i, a);
    assert LiveAfter(trace, i) == {};
    hide *;
    NoPreWork(a, trace[i]);
    Assoc(BranchCode(a, trace[i], 4 * i).code, [], []);
  }

  lemma CompileBranchInst(trace: seq<Inst>, i: nat, a: Allocation)
    requires i < |trace| && OpcodeOf(trace[i].cmd) == OpBranch
    ensures var pre := PreWork(a, trace[i], LiveAfter(trace, i));
      var body := BranchCode(pre.a, trace[i], 4 * i);
      CompileInst(trace, i, a).code == pre.code + body.code + PostWork(body.a, trace[i], LiveAfter(trace, i)).code
  {
  }

  /** A pass from any boundary: native code simulates the rest of the trace. */
  lemma {:induction false} PassFrom(sys: Sys, trace: seq<Inst>, full: seq<Instr>, i: nat, a: Allocation, p: nat,
                                    s: GState, m: Machine)
      returns (c: Control)
    requires IsTrace(trace) && Supported(trace) && i < |trace| && Boundary(sys, trace, full, i, a, p, s, m)
    ensures Reaches(full, At(p, m), c) && RunFrom(sys, trace, i, s).Running?
    ensures PassEnd(c, BackEdgeFrom(sys, trace, i, s), RunFrom(sys, trace, i, s).s, m.base)
    decreases |trace| - i
  {
    hide *;
    TraceFacts(trace, i);
    if i + 1 == |trace| {
      if OpcodeOf(trace[i].cmd) == OpBranch {
        c := BranchEnds(sys, trace, full, i, a, p, s, m);
      } else {
        c := JumpEnds(sys, trace, full, i, a, p, s, m);
      }
      RunFromLast(sys, trace, i, s);
    } else {
      BoundaryFacts(sys, trace, full, i, a, p, s, m);
      InstSound(sys, trace, i, a, s, m);
      RunFromMore(sys, trace, i, s);
      var code, t := CompileInst(trace, i, a), Step(sys, trace[i], 4 * i, s).s;
      var m2 := Run(code.code, m);
      NextBoundary(sys, trace, full, i, a, p, s, m);
      StandsHere(trace, full, i, a, p);
      RepOk(code.a, t, m2, 0);
      StraightReaches(full, p, code.code, m);
      c := PassFrom(sys, trace, full, i + 1, code.a, p + |code.code|, t, m2);
      ReachesTrans(full, At(p, m), At(p + |code.code|, m2), c);
    }
  }

  lemma StandsHere(trace: seq<Inst>, full: seq<Instr>, i: nat, a: Allocation, p: nat)
    requires i < |trace| && StandsAt(full, p, CompileFrom(trace, i, a) + [Ret])
    ensures var c := CompileInst(trace, i, a);
      StandsAt(full, p, c.code) && StandsAt(full, p + |c.code|, CompileFrom(trace, i + 1, c.a) + [Ret])
  {
    hide *;
    CompileFromMore(trace, i, a);
    var c := CompileInst(trace, i, a);
    Assoc(c.code, CompileFrom(trace, i + 1, c.a), [Ret]);
    StandsApart(full, p, c.code, CompileFrom(trace, i + 1, c.a) + [Ret]);
  }

  lemma CompileFromMore(trace: seq<Inst>, i: nat, a: Allocation)
    requires i < |trace|
    ensures var c := CompileInst(trace, i, a);
      CompileFrom(trace, i, a) == c.code + CompileFrom(trace, i + 1, c.a)
  {
  }

  lemma CompileFromLast(trace: seq<Inst>, i: nat, a: Allocation)
    requires i + 1 == |trace|
    ensures CompileFrom(trace, i, a) == CompileInst(trace, i, a).code
  {
  }

  lemma NextBoundary(sys: Sys, trace: seq<Inst>, full: seq<Instr>, i: nat, a: Allocation, p: nat, s: GState, m: Machine)
    requires IsTrace(trace) && Supported(trace) && i + 1 < |trace| && Boundary(sys, trace, full, i, a, p, s, m)
    requires Step(sys, trace[i], 4 * i, s).Running?
    requires var c := CompileInst(trace, i, a);
      && Straight(c.code) && Inv(c.a) && MappedIn(c.a, LiveAfter(trace, i))
      && Rep(c.a, Step(sys, trace[i], 4 * i, s).s, Run(c.code, m), 0) && Run(c.code, m).base == m.base
    ensures var c := CompileInst(trace, i, a);
      Boundary(sys, trace, full, i + 1, c.a, p + |c.code|, Step(sys, trace[i], 4 * i, s).s, Run(c.code, m))
  {
    var c, t := CompileInst(trace, i, a), Step(sys, trace[i], 4 * i, s).s;
    TraceFacts(trace, i);
    RunFromMore(sys, trace, i, s);
    StandsHere(trace, full, i, a, p);
    OpensPast(full, p, c.code);
    FitsStays(a, c.a, s, m, t, Run(c.code, m), 0);
    assert GuardsFrom(trace, i + 1, c.a) by { hide TemplateOk, PreWork, CompileInst; }
    hide Inv, Rep, MappedIn, Fits, TemplateOk, OperandsOk, Opens, StandsAt, PreWork, CompileInst, Run, Step, SafeFrom,
      GuardsFrom, LiveBefore, LiveAfter;
  }

  // ----- the instruction counter -----

  function Counted(o: Outcome, n: nat): Outcome {
    match o
    case Running(t) => Running(Count(t, n))
    case Stopped(t) => Stopped(Count(t, n))
  }

  lemma MemoryStepCount(sys: Sys, i: Inst, off: nat, s: GState, n: nat)
    requires OpcodeOf(i.cmd) == OpLoad || OpcodeOf(i.cmd) == OpStore
    ensures Step(sys, i, off, Count(s, n)) == Counted(Step(sys, i, off, s), n)
  {
    hide LoadBytes, StoreBytes, Extend, SetReg, ImmResult, RegResult, BranchTaken, SysCall, Add, Wrap, And, Signed;
    var va, size := Add(s.regs[i.rs1], i.imm), AccessSize(i.cmd);
    if OpcodeOf(i.cmd) == OpLoad && !OutOfMemory(s.mem, va, size) {
      SetRegCount(s, i.rd, Extend(LoadBytes(s.mem, va, size), size, IsSignedLoad(i.cmd)), n);
    }
  }

  lemma SetRegCount(s: GState, r: Reg, v: Word, n: nat)
    ensures SetReg(Count(s, n), r, v) == Count(SetReg(s, r, v), n)
    ensures Count(s, n).regs == s.regs && Counted(Running(s), n) == Running(Count(s, n))
  {
  }

  lemma ArithStepCount(sys: Sys, i: Inst, off: nat, s: GState, n: nat)
    requires IsImmArith(i.cmd) || IsRegArith(i.cmd)
    ensures Step(sys, i, off, Count(s, n)) == Counted(Step(sys, i, off, s), n)
  {
    hide ImmResult, RegResult, SetReg, Count, Counted, LoadBytes, StoreBytes, Extend, SysCall, Add, Wrap, And, Signed;
    SetRegCount(s, i.rd, 0, n);
    SetRegCount(s, i.rd, if IsImmArith(i.cmd) then ImmResult(i.cmd, s.regs[i.rs1], i.imm)
                         else RegResult(i.cmd, s.regs[i.rs1], s.regs[i.rs2]), n);
    CountedRunning(SetReg(s, i.rd, if IsImmArith(i.cmd) then ImmResult(i.cmd, s.regs[i.rs1], i.imm)
                                   else RegResult(i.cmd, s.regs[i.rs1], s.regs[i.rs2])), n);
  }

  lemma CountedRunning(s: GState, n: nat)
    ensures Counted(Running(s), n) == Running(Count(s, n))
  {
  }

  lemma JumpCount(i: Inst, off: nat, s: GState, n: nat)
    ensures AfterJump(i, off, Count(s, n)) == Count(AfterJump(i, off, s), n)
  {
  }

  lemma PcCount(s: GState, pc: Word, n: nat)
    ensures Count(s, n).(pc := pc) == Count(s.(pc := pc), n)
    ensures Count(s, n).pc == s.pc && Counted(Running(s), n) == Running(Count(s, n))
  {
  }

  /** Instructions do not look at the counter: it may be advanced before them or after them. */
  lemma StepCount(sys: Sys, i: Inst, off: nat, s: GState, n: nat)
    requires i.IsTranslationSupported()
    ensures Step(sys, i, off, Count(s, n)) == Counted(Step(sys, i, off, s), n)
  {
    var u := Count(s, n);
    SetRegCount(s, 0, 0, n);
    PcCount(s, 0, n);
    if i.cmd in {LUI, AUIPC} {
      var v := if i.cmd == LUI then i.imm else Add(s.pc, Wrap(off + i.imm));
      hide *;
      UpperStep(sys, i, off, s);
      UpperStep(sys, i, off, u);
      SetRegCount(s, i.rd, v, n);
      PcCount(SetReg(s, i.rd, v), 0, n);
    } else if i.cmd in {JAL, JALR} {
      hide *;
      JumpStep(sys, i, off, s);
      JumpStep(sys, i, off, u);
      JumpCount(i, off, s, n);
      PcCount(AfterJump(i, off, s), 0, n);
    } else if OpcodeOf(i.cmd) == OpBranch {
      hide *;
      var k := if BranchTaken(i.cmd, s.regs[i.rs1], s.regs[i.rs2]) then TakenOffset(off, i.imm) else off + 4;
      BranchStep(sys, i, off, s);
      BranchStep(sys, i, off, u);
      PcCount(s, Add(s.pc, Wrap(k)), n);
      PcCount(s.(pc := Add(s.pc, Wrap(k))), 0, n);
    } else if OpcodeOf(i.cmd) == OpLoad || OpcodeOf(i.cmd) == OpStore {
      MemoryStepCount(sys, i, off, s, n);
    } else {
      ArithStepCount(sys, i, off, s, n);
    }
  }

  lemma OperandsCount(i: Inst, off: nat, s: GState, n: nat)
    ensures OperandsOk(i, Count(s, n)) == OperandsOk(i, s) && GoesBack(i, off, Count(s, n)) == GoesBack(i, off, s)
  {
  }

  lemma {:induction false} PassCount(sys: Sys, trace: seq<Inst>, i: nat, s: GState, n: nat)
    requires IsTrace(trace) && Supported(trace) && i < |trace|
    ensures RunFrom(sys, trace, i, Count(s, n)) == Counted(RunFrom(sys, trace, i, s), n)
    ensures SafeFrom(sys, trace, i, Count(s, n)) == SafeFrom(sys, trace, i, s)
    ensures BackEdgeFrom(sys, trace, i, Count(s, n)) == BackEdgeFrom(sys, trace, i, s)
    decreases |trace| - i
  {
    hide Step, OperandsOk, GoesBack, Count;
    TraceFacts(trace, i);
    StepCount(sys, trace[i], 4 * i, s, n);
    OperandsCount(trace[i], 4 * i, s, n);
    if i + 1 < |trace| {
      match Step(sys, trace[i], 4 * i, s)
      case Running(t) => PassCount(sys, trace, i + 1, t, n);
      case Stopped(_) =>
    }
  }

  // ----- the compiled function -----

  lemma ProloguePlace(n: nat, rest: seq<Instr>)
    ensures var full := Prologue(n) + rest;
      && |full| >= 2 && full[0] == Bind(START) && full[1] == AddExecuted(n)
      && Opens(full, 2) && StandsAt(full, 2, rest)
  {
  }

  lemma PrologueRuns(n: nat, rest: seq<Instr>, m: Machine)
    requires m.ok
    ensures var full := Prologue(n) + rest;
      Next(full, Next(full, At(0, m))) == At(2, m.(g := Count(m.g, n), flags := Undefined))
  {
  }

  /** Before the first instruction every register is in its slot. */
  lemma InitiallyInSlots(s: GState, m: Machine, live: set<Reg>)
    requires m.ok && m.g == s
    ensures var a := InitialAllocation();
      Inv(a) && Rep(a, s, m, 0) && MappedIn(a, live)
  {
    hide Inv;
    InitialInv();
  }

  /** One entry of the compiled function does what one interpreted run of the trace does, counter
      included, and comes back to its start exactly when the trace ends with a taken branch to its head. */
  lemma OnePass(sys: Sys, trace: seq<Inst>, s: GState, m: Machine) returns (n: nat, c: Control)
    requires Translatable(trace) && SafeFrom(sys, trace, 0, s) && m.ok && m.g == s && Fits(m)
    ensures n > 0 && Steps(Compile(trace), At(0, m), n) == c && RunTrace(sys, trace, s).Running?
    ensures PassEnd(c, BackEdgeFrom(sys, trace, 0, s), RunTrace(sys, trace, s).s, m.base)
  {
    hide *;
    var full, a := Compile(trace), InitialAllocation();
    var s2, m2 := Count(s, |trace|), m.(g := Count(m.g, |trace|), flags := Undefined);
    TranslatableFacts(trace);
    CountedMachine(s, m, |trace|);
    RunTraceCount(sys, trace, s);
    ProloguePlace(|trace|, CompileFrom(trace, 0, a) + [Ret]);
    PrologueRuns(|trace|, CompileFrom(trace, 0, a) + [Ret], m);
    InitiallyInSlots(s2, m2, LiveBefore(trace[0], LiveAfter(trace, 0)));
    PassCount(sys, trace, 0, s, |trace|);
    BoundaryHolds(sys, trace, full, a, s2, m2);
    c := PassFrom(sys, trace, full, 0, a, 2, s2, m2);
    n := StepsAfterTwo(full, At(0, m), At(2, m2), c);
  }

  lemma TranslatableFacts(trace: seq<Inst>)
    requires Translatable(trace)
    ensures IsTrace(trace) && |trace| > 0 && Supported(trace) && GuardsFrom(trace, 0, InitialAllocation())
    ensures Compile(trace) == Prologue(|trace|) + (CompileFrom(trace, 0, InitialAllocation()) + [Ret])
  {
    hide CompileFrom, InitialAllocation, Supported, GuardsFrom;
  }

  lemma CountedMachine(s: GState, m: Machine, n: nat)
    requires m.ok && m.g == s && Fits(m)
    ensures var m2 := m.(g := Count(m.g, n), flags := Undefined);
      m2.ok && m2.g == Count(s, n) && m2.base == m.base && Fits(m2)
  {
  }

  lemma BoundaryHolds(sys: Sys, trace: seq<Inst>, full: seq<Instr>, a: Allocation, s: GState, m: Machine)
    requires IsTrace(trace) && GuardsFrom(trace, 0, a) && SafeFrom(sys, trace, 0, s)
    requires Inv(a) && Rep(a, s, m, 0) && MappedIn(a, LiveBefore(trace[0], LiveAfter(trace, 0))) && Fits(m)
    requires Opens(full, 2) && StandsAt(full, 2, CompileFrom(trace, 0, a) + [Ret])
    ensures Boundary(sys, trace, full, 0, a, 2, s, m)
  {
    hide GuardsFrom, SafeFrom, Inv, Rep, MappedIn, Fits, Opens, StandsAt;
  }

  lemma RunTraceCount(sys: Sys, trace: seq<Inst>, s: GState)
    requires IsTrace(trace) && Supported(trace)
    ensures RunFrom(sys, trace, 0, Count(s, |trace|)).Running? ==>
      RunTrace(sys, trace, s) == RunFrom(sys, trace, 0, Count(s, |trace|))
  {
    hide RunFrom, Count;
    PassCount(sys, trace, 0, s, |trace|);
  }

  lemma StepsAfterTwo(full: seq<Instr>, c: Control, d: Control, e: Control) returns (n: nat)
    requires Next(full, Next(full, c)) == d && Reaches(full, d, e)
    ensures n > 0 && Steps(full, c, n) == e
  {
    hide Next;
    var k: nat :| Steps(full, d, k) == e;
    n := k + 2;
    assert Steps(full, c, n) == Steps(full, Next(full, c), k + 1) == Steps(full, d, k);
  }

  // ----- any number of passes -----

  /** k passes of the interpreter over the trace, all but the last ending with the branch to the head,
      lead from s to t. */
  predicate Passes(sys: Sys, trace: seq<Inst>, s: GState, k: nat, t: GState)
    requires IsTrace(trace)
    decreases k
  {
    && k > 0 && RunTrace(sys, trace, s).Running?
    && var u := RunTrace(sys, trace, s).s;
      if BackEdgeFrom(sys, trace, 0, s) then Passes(sys, trace, u, k - 1, t) else k == 1 && t == u
  }

  /** The operands are acceptable in each of the first k passes that take place. */
  predicate SafePasses(sys: Sys, trace: seq<Inst>, s: GState, k: nat)
    requires IsTrace(trace)
    decreases k
  {
    k > 0 ==>
      && SafeFrom(sys, trace, 0, s)
      && (BackEdgeFrom(sys, trace, 0, s) ==> SafePasses(sys, trace, RunTrace(sys, trace, s).s, k - 1))
  }

  /** Native code reaches its return after some number of steps, in guest state t. */
  ghost predicate NativeReturns(trace: seq<Inst>, m: Machine, t: GState) {
    exists n: nat :: Steps(Compile(trace), At(0, m), n).Returned? && Steps(Compile(trace), At(0, m), n).m.g == t
  }

  lemma FirstPass(sys: Sys, trace: seq<Inst>, s: GState, k: nat, t: GState)
    requires IsTrace(trace) && Passes(sys, trace, s, k, t)
    ensures var u := RunTrace(sys, trace, s).s;
      && k > 0 && |u.mem| == |s.mem|
      && if BackEdgeFrom(sys, trace, 0, s) then Passes(sys, trace, u, k - 1, t) else k == 1 && t == u
  {
  }

  lemma FirstSafePass(sys: Sys, trace: seq<Inst>, s: GState, k: nat)
    requires IsTrace(trace) && SafePasses(sys, trace, s, k) && k > 0
    ensures SafeFrom(sys, trace, 0, s)
    ensures BackEdgeFrom(sys, trace, 0, s) ==> SafePasses(sys, trace, RunTrace(sys, trace, s).s, k - 1)
  {
  }

  lemma EndOfPass(c: Control, back: bool, t: GState, base: nat)
    requires PassEnd(c, back, t, base)
    ensures if back then c == At(0, c.m) && c.m.ok && c.m.g == t && c.m.base == base else c == Returned(c.m) && c.m.g == t
  {
  }

  lemma StillFits(m: Machine, n: Machine)
    requires Fits(m) && n.base == m.base && |n.g.mem| == |m.g.mem|
    ensures Fits(n)
  {
  }

  lemma {:induction false} PassesAreNative(sys: Sys, trace: seq<Inst>, s: GState, k: nat, t: GState, m: Machine)
    requires Translatable(trace) && Passes(sys, trace, s, k, t) && SafePasses(sys, trace, s, k)
    requires m.ok && m.g == s && Fits(m)
    ensures NativeReturns(trace, m, t)
    decreases k
  {
    hide *;
    TranslatableFacts(trace);
    var full, u, back := Compile(trace), RunTrace(sys, trace, s).s, BackEdgeFrom(sys, trace, 0, s);
    FirstPass(sys, trace, s, k, t);
    FirstSafePass(sys, trace, s, k);
    var n, c := OnePass(sys, trace, s, m);
    EndOfPass(c, back, u, m.base);
    if back {
      StillFits(m, c.m);
      PassesAreNative(sys, trace, u, k - 1, t, c.m);
      var j := ReturnTime(trace, c.m, t);
      StepsAdd(full, At(0, m), n, j);
      HasReturned(trace, m, n + j, t);
    } else {
      HasReturned(trace, m, n, t);
    }
  }

  lemma ReturnTime(trace: seq<Inst>, m: Machine, t: GState) returns (n: nat)
    requires NativeReturns(trace, m, t)
    ensures Steps(Compile(trace), At(0, m), n).Returned? && Steps(Compile(trace), At(0, m), n).m.g == t
  {
    hide Steps, Compile;
    n :| Steps(Compile(trace), At(0, m), n).Returned? && Steps(Compile(trace), At(0, m), n).m.g == t;
  }

  lemma HasReturned(trace: seq<Inst>, m: Machine, n: nat, t: GState)
    requires Steps(Compile(trace), At(0, m), n).Returned? && Steps(Compile(trace), At(0, m), n).m.g == t
    ensures NativeReturns(trace, m, t)
  {
    hide Steps, Compile;
  }

  lemma {:induction false} ReturnedStays(full: seq<Instr>, m: Machine, n: nat)
    ensures Steps(full, Returned(m), n) == Returned(m)
    decreases n
  {
    if n > 0 {
      ReturnedStays(full, m, n - 1);
    }
  }

  /** Steps after a return, or before reaching a state that is no return. */
  lemma ReturnIsLast(full: seq<Instr>, c: Control, n: nat, p: nat)
    requires Steps(full, c, n).Returned?
    ensures n <= p ==> Steps(full, c, p) == Steps(full, c, n)
    ensures n > p ==> Steps(full, Steps(full, c, p), n - p) == Steps(full, c, n)
    ensures Steps(full, c, p).Returned? ==> Steps(full, c, p) == Steps(full, c, n)
  {
    hide *;
    if n <= p {
      StepsAdd(full, c, n, p - n);
      ReturnedStays(full, Steps(full, c, n).m, p - n);
    } else {
      StepsAdd(full, c, p, n - p);
      if Steps(full, c, p).Returned? {
        ReturnedStays(full, Steps(full, c, p).m, n - p);
      }
    }
  }

  /** A state is safe when every number of passes from it is. */
  ghost predicate Safe(sys: Sys, trace: seq<Inst>, s: GState)
    requires IsTrace(trace)
  {
    forall k: nat :: SafePasses(sys, trace, s, k)
  }

  lemma SafeNext(sys: Sys, trace: seq<Inst>, s: GState)
    requires IsTrace(trace) && Safe(sys, trace, s)
    ensures SafeFrom(sys, trace, 0, s)
    ensures BackEdgeFrom(sys, trace, 0, s) ==> Safe(sys, trace, RunTrace(sys, trace, s).s)
  {
    assert |trace| > 0;
    hide *;
    SafeAt(sys, trace, s, 1);
    FirstSafePass(sys, trace, s, 1);
    if BackEdgeFrom(sys, trace, 0, s) {
      var u := RunTrace(sys, trace, s).s;
      forall k: nat
        ensures SafePasses(sys, trace, u, k)
      {
        SafeAt(sys, trace, s, k + 1);
        FirstSafePass(sys, trace, s, k + 1);
      }
      AllSafe(sys, trace, u);
    }
  }

  lemma SafeAt(sys: Sys, trace: seq<Inst>, s: GState, k: nat)
    requires IsTrace(trace) && Safe(sys, trace, s)
    ensures SafePasses(sys, trace, s, k)
  {
  }

  lemma AllSafe(sys: Sys, trace: seq<Inst>, s: GState)
    requires IsTrace(trace) && forall k: nat :: SafePasses(sys, trace, s, k)
    ensures Safe(sys, trace, s)
  {
  }

  lemma AddPass(sys: Sys, trace: seq<Inst>, s: GState, k: nat, t: GState)
    requires IsTrace(trace) && RunTrace(sys, trace, s).Running?
    ensures var u := RunTrace(sys, trace, s).s;
      if BackEdgeFrom(sys, trace, 0, s) then Passes(sys, trace, u, k, t) ==> Passes(sys, trace, s, k + 1, t)
      else Passes(sys, trace, s, 1, u)
  {
  }

  /** Conversely, native code that returns has made some number of whole passes. */
  lemma {:induction false} NativeIsPasses(sys: Sys, trace: seq<Inst>, s: GState, m: Machine, n: nat) returns (k: nat)
    requires Translatable(trace) && IsTrace(trace) && Safe(sys, trace, s)
    requires m.ok && m.g == s && Fits(m) && Steps(Compile(trace), At(0, m), n).Returned?
    ensures Passes(sys, trace, s, k, Steps(Compile(trace), At(0, m), n).m.g)
    decreases n
  {
    hide *;
    TranslatableFacts(trace);
    var full, u, back := Compile(trace), RunTrace(sys, trace, s).s, BackEdgeFrom(sys, trace, 0, s);
    var t := Steps(full, At(0, m), n).m.g;
    SafeNext(sys, trace, s);
    var p, c := OnePass(sys, trace, s, m);
    EndOfPass(c, back, u, m.base);
    ReturnIsLast(full, At(0, m), n, p);
    k := 0;
    if back {
      SameMemSize(sys, trace, s);
      StillFits(m, c.m);
      k := NativeIsPasses(sys, trace, u, c.m, n - p);
    }
    AddPass(sys, trace, s, k, t);
    k := k + 1;
  }

  lemma SameMemSize(sys: Sys, trace: seq<Inst>, s: GState)
    requires IsTrace(trace)
    ensures |RunTrace(sys, trace, s).s.mem| == |s.mem|
  {
  }

  /** Whole-trace compiler correctness. From a machine whose State structure is the guest state s, the
      compiled function returns with guest state t exactly when some k >= 1 interpreted runs of the
      trace, all but the last ending with the branch to the trace head, lead from s to t: registers,
      pc, memory and instruction counter. */
  lemma CompilerCorrect(sys: Sys, trace: seq<Inst>, s: GState, m: Machine, t: GState)
    requires Translatable(trace) && IsTrace(trace) && Safe(sys, trace, s)
    requires m.ok && m.g == s && Fits(m)
    ensures NativeReturns(trace, m, t) <==> exists k :: Passes(sys, trace, s, k, t)
  {
    hide *;
    if NativeReturns(trace, m, t) {
      var n := ReturnTime(trace, m, t);
      var k := NativeIsPasses(sys, trace, s, m, n);
      assert Passes(sys, trace, s, k, t);
    }
    if exists k :: Passes(sys, trace, s, k, t) {
      var k :| Passes(sys, trace, s, k, t);
      SafeAt(sys, trace, s, k);
      PassesAreNative(sys, trace, s, k, t, m);
    }
  }

  /** A pass that ends with the branch to the head leaves pc at the head. */
  lemma {:induction false} BackEdgeKeepsPc(sys: Sys, trace: seq<Inst>, i: nat, s: GState)
    requires IsTrace(trace) && i < |trace| && BackEdgeFrom(sys, trace, i, s)
    ensures RunFrom(sys, trace, i, s).Running? && RunFrom(sys, trace, i, s).s.pc == s.pc
    decreases |trace| - i
  {
    if i + 1 == |trace| {
      BackToHead(trace[i], 4 * i, s);
      BranchStep(sys, trace[i], 4 * i, s);
    } else {
      var t := Step(sys, trace[i], 4 * i, s).s;
      RunFromMore(sys, trace, i, s);
      BackEdgeKeepsPc(sys, trace, i + 1, t);
    }
  }

  /** k native passes count k times the trace length. */
  lemma {:induction false} PassesCount(sys: Sys, trace: seq<Inst>, s: GState, k: nat, t: GState)
    requires IsTrace(trace) && Passes(sys, trace, s, k, t)
    ensures t.executed == (s.executed + k * |trace|) % TWO64
    decreases k
  {
    hide *;
    TraceLength(trace);
    FirstPass(sys, trace, s, k, t);
    RunTraceCounts(sys, trace, s, k, t);
    if BackEdgeFrom(sys, trace, 0, s) {
      PassesCount(sys, trace, RunTrace(sys, trace, s).s, k - 1, t);
    }
    CountSum(s.executed, RunTrace(sys, trace, s).s.executed, t.executed, k, |trace|);
  }

  lemma TraceLength(trace: seq<Inst>)
    requires IsTrace(trace)
    ensures |trace| > 0
  {
  }

  lemma CountSum(e: nat, u: nat, t: nat, k: nat, n: nat)
    requires k > 0 && u == (e + n) % TWO64 && (t == (u + (k - 1) * n) % TWO64 || (k == 1 && t == u))
    ensures t == (e + k * n) % TWO64
  {
    MulPred(k, n);
    CountRest(e, u, t, n, (k - 1) * n);
  }

  lemma MulPred(k: nat, n: nat)
    requires k > 0
    ensures k * n == n + (k - 1) * n && (k == 1 ==> (k - 1) * n == 0)
  {
  }

  lemma CountRest(e: nat, u: nat, t: nat, n: nat, m: nat)
    requires u == (e + n) % TWO64 && (t == (u + m) % TWO64 || (m == 0 && t == u))
    ensures t == (e + (n + m)) % TWO64
  {
    ModSum(e + n, m);
  }

  lemma ModSum(x: nat, y: nat)
    ensures (x % TWO64 + y) % TWO64 == (x + y) % TWO64
  {
  }

  lemma RunTraceCounts(sys: Sys, trace: seq<Inst>, s: GState, k: nat, t: GState)
    requires IsTrace(trace) && Passes(sys, trace, s, k, t)
    ensures RunTrace(sys, trace, s).s.executed == (s.executed + |trace|) % TWO64
  {
    assert RunTrace(sys, trace, s).Running? by { hide RunTrace, BackEdgeFrom; }
    hide Passes, BackEdgeFrom, RunFrom;
  }

  // ----- traces that need no guard on values -----

  /** A translatable instruction that neither loads, stores nor takes a signed high word. */
  predicate IsCarefree(i: Inst) {
    i.IsTranslationSupported() && OpcodeOf(i.cmd) != OpLoad && OpcodeOf(i.cmd) != OpStore && i.cmd != MULH
  }

  lemma CarefreeStep(sys: Sys, i: Inst, off: nat, s: GState)
    requires IsCarefree(i)
    ensures OperandsOk(i, s) && Step(sys, i, off, s).Running?
  {
    hide SetReg, LoadBytes, StoreBytes, Extend, ImmResult, RegResult, BranchTaken, SysCall, And, Add, Wrap, Signed, AccessSize;
  }

  lemma {:induction false} CarefreeFrom(sys: Sys, trace: seq<Inst>, i: nat, s: GState)
    requires IsTrace(trace) && i < |trace| && forall j :: 0 <= j < |trace| ==> IsCarefree(trace[j])
    ensures SafeFrom(sys, trace, i, s) && RunFrom(sys, trace, i, s).Running?
    decreases |trace| - i
  {
    hide Step, OperandsOk, IsCarefree;
    CarefreeStep(sys, trace[i], 4 * i, s);
    if i + 1 < |trace| {
      CarefreeFrom(sys, trace, i + 1, Step(sys, trace[i], 4 * i, s).s);
    }
  }

  lemma {:induction false} CarefreePasses(sys: Sys, trace: seq<Inst>, s: GState, k: nat)
    requires IsTrace(trace) && forall j :: 0 <= j < |trace| ==> IsCarefree(trace[j])
    ensures SafePasses(sys, trace, s, k)
    decreases k
  {
    hide SafeFrom, BackEdgeFrom, RunTrace, IsCarefree;
    if k > 0 {
      CarefreeFrom(sys, trace, 0, s);
      if BackEdgeFrom(sys, trace, 0, s) {
        CarefreePasses(sys, trace, RunTrace(sys, trace, s).s, k - 1);
      }
    }
  }

  /** Such traces are safe in every state. */
  lemma CarefreeIsSafe(sys: Sys, trace: seq<Inst>, s: GState)
    requires IsTrace(trace) && forall j :: 0 <= j < |trace| ==> IsCarefree(trace[j])
    ensures Safe(sys, trace, s)
  {
    hide SafePasses, IsCarefree;
    forall k: nat
      ensures SafePasses(sys, trace, s, k)
    {
      CarefreePasses(sys, trace, s, k);
    }
  }

  /** The example trace, natively: from any machine it returns with x5 = -x6 and x7 = x5 - x6. */
  lemma ExampleReturns(sys: Sys, s: GState, m: Machine) returns (t: GState)
    requires m.ok && m.g == s && Fits(m)
    ensures NativeReturns(NEGATE_TWICE, m, t)
    ensures var x: int := s.regs[6]; t.regs[5] == -x % WORD && t.regs[7] == -2 * x % WORD
  {
    hide *;
    ExampleIsTranslatable();
    ExampleRuns(sys, s);
    CarefreeIsSafe(sys, NEGATE_TWICE, s);
    t := RunTrace(sys, NEGATE_TWICE, s).s;
    CompilerCorrect(sys, NEGATE_TWICE, s, m, t);
  }

  lemma ExampleRuns(sys: Sys, s: GState)
    ensures IsTrace(NEGATE_TWICE) && forall j :: 0 <= j < |NEGATE_TWICE| ==> IsCarefree(NEGATE_TWICE[j])
    ensures var t := RunTrace(sys, NEGATE_TWICE, s).s;
            && Passes(sys, NEGATE_TWICE, s, 1, t)
            && var x: int := s.regs[6]; t.regs[5] == -x % WORD && t.regs[7] == -2 * x % WORD
  {
    hide Step, RunFrom, BackEdgeFrom, RunTrace, Passes, Sub, IsCarefree, IsTrace;
    ExampleIsCarefree();
    NegatedTwice(s.regs[6]);
    var u := s.(regs := s.regs[5 := Sub(0, s.regs[6])]);
    var v := u.(regs := u.regs[7 := Sub(u.regs[5], u.regs[6])]);
    SubtractStep(sys, NEGATE_TWICE[0], 0, s);
    SubtractStep(sys, NEGATE_TWICE[1], 4, u);
    LastStep(sys, NEGATE_TWICE[2], 8, v);
    PassGoesOn(sys, NEGATE_TWICE, 0, s, u);
    PassGoesOn(sys, NEGATE_TWICE, 1, u, v);
    PassEnds(sys, NEGATE_TWICE, v);
    OnePassRuns(sys, NEGATE_TWICE, s, Step(sys, NEGATE_TWICE[2], 8, v).s);
  }

  lemma ExampleIsCarefree()
    ensures IsTrace(NEGATE_TWICE) && forall j :: 0 <= j < |NEGATE_TWICE| ==> IsCarefree(NEGATE_TWICE[j])
  {
  }

  lemma OnePassRuns(sys: Sys, trace: seq<Inst>, s: GState, t: GState)
    requires IsTrace(trace) && RunFrom(sys, trace, 0, s) == Running(t) && !BackEdgeFrom(sys, trace, 0, s)
    ensures RunTrace(sys, trace, s).s.regs == t.regs && Passes(sys, trace, s, 1, RunTrace(sys, trace, s).s)
  {
    hide RunFrom, BackEdgeFrom;
  }

  lemma NegatedTwice(x: Word)
    ensures Sub(0, x) == -(x as int) % WORD && Sub(Sub(0, x), x) == -2 * (x as int) % WORD
  {
    var n: int := x;
    if n == 0 {
    } else {
      DivMod(-n, -1, WORD, WORD - n);
      if 2 * n <= WORD {
        DivMod(WORD - 2 * n, 0, WORD, if 2 * n == WORD then 0 else WORD - 2 * n);
        DivMod(-2 * n, -1, WORD, WORD - 2 * n);
      } else {
        DivMod(WORD - 2 * n, -1, WORD, 2 * WORD - 2 * n);
        DivMod(-2 * n, -2, WORD, 2 * WORD - 2 * n);
      }
    }
  }

  lemma PassGoesOn(sys: Sys, trace: seq<Inst>, i: nat, s: GState, t: GState)
    requires IsTrace(trace) && i + 1 < |trace| && Step(sys, trace[i], 4 * i, s) == Running(t)
    ensures RunFrom(sys, trace, i, s) == RunFrom(sys, trace, i + 1, t)
    ensures BackEdgeFrom(sys, trace, i, s) == BackEdgeFrom(sys, trace, i + 1, t)
  {
    hide Step;
  }

  lemma PassEnds(sys: Sys, trace: seq<Inst>, s: GState)
    requires IsTrace(trace) && trace[|trace| - 1].cmd == JALR
    ensures var i := |trace| - 1; RunFrom(sys, trace, i, s) == Step(sys, trace[i], 4 * i, s) && !BackEdgeFrom(sys, trace, i, s)
  {
    hide Step;
  }

  lemma SubtractStep(sys: Sys, i: Inst, off: nat, s: GState)
    requires i.cmd == SUB && i.rd != 0
    ensures Step(sys, i, off, s) == Running(s.(regs := s.regs[i.rd := Sub(s.regs[i.rs1], s.regs[i.rs2])]))
  {
    hide LoadBytes, StoreBytes, Extend, ImmResult, BranchTaken, SysCall, And, Add, Wrap, Signed, AccessSize;
  }

  lemma LastStep(sys: Sys, i: Inst, off: nat, s: GState)
    requires i.cmd == JALR && i.rd == 0
    ensures Step(sys, i, off, s).Running? && Step(sys, i, off, s).s.regs == s.regs
  {
    hide LoadBytes, StoreBytes, Extend, ImmResult, RegResult, BranchTaken, SysCall, And, Add, Wrap, Signed, AccessSize;
  }
}
