/** Compiling a whole trace: allocation around every instruction, and the code of the function. */
module Compiler {
  import opened Isa
  import opened Guest
  import opened Host
  import opened Alloc
  import opened Templates
  import opened TemplateCorrect

  // ----- allocation before and after an instruction -----

  function AllocateIf(b: bool, a: Allocation, r: Reg, load: bool): (c: Coded)
    ensures Straight(c.code)
  {
    if b && r != 0 then Allocate(a, r, load) else Coded([], a)
  }

  function DeallocateIf(b: bool, a: Allocation, r: Reg): (c: Coded)
    ensures Straight(c.code)
  {
    if b && r != 0 then Deallocate(a, r) else Coded([], a)
  }

  /** Operands that stay live get a host register: sources are loaded, the destination is not. */
  function PreWork(a: Allocation, i: Inst, live: set<Reg>): (c: Coded)
    ensures Straight(c.code)
  {
    var x := AllocateIf(i.IsRs1() && i.rs1 in live, a, i.rs1, true);
    var y := AllocateIf(i.IsRs2() && i.rs2 in live, x.a, i.rs2, true);
    var z := AllocateIf(i.IsRd() && i.rd in live, y.a, i.rd, false);
    Coded(x.code + y.code + z.code, z.a)
  }

  /** Operands that are dead now go back to their slots. */
  function PostWork(a: Allocation, i: Inst, live: set<Reg>): (c: Coded)
    ensures Straight(c.code)
  {
    var x := DeallocateIf(i.IsRs1() && i.rs1 !in live, a, i.rs1);
    var y := DeallocateIf(i.IsRs2() && i.rs2 !in live, x.a, i.rs2);
    var z := DeallocateIf(i.IsRd() && i.rd !in live, y.a, i.rd);
    Coded(x.code + y.code + z.code, z.a)
  }

  // ----- the trace -----

  /** Code of instruction i, started in allocation a. */
  function CompileInst(trace: seq<Inst>, i: nat, a: Allocation): (c: Coded)
    requires i < |trace|
  {
    var live := LiveAfter(trace, i);
    var pre := PreWork(a, trace[i], live);
    var body := Translate(pre.a, trace[i], 4 * i);
    var post := PostWork(body.a, trace[i], live);
    Coded(pre.code + body.code + post.code, post.a)
  }

  function CompileFrom(trace: seq<Inst>, i: nat, a: Allocation): seq<Instr>
    requires i <= |trace|
    decreases |trace| - i
  {
    if i == |trace| then []
    else
      var c := CompileInst(trace, i, a);
      c.code + CompileFrom(trace, i + 1, c.a)
  }

  function Prologue(n: nat): seq<Instr> {
    [Bind(START), AddExecuted(n)]
  }

  function Supported(trace: seq<Inst>): bool {
    forall i :: 0 <= i < |trace| ==> trace[i].IsTranslationSupported()
  }

  /** The compiled function. */
  function Compile(trace: seq<Inst>): seq<Instr> {
    Prologue(|trace|) + (CompileFrom(trace, 0, InitialAllocation()) + [Ret])
  }

  /** The templates' side conditions, in the allocation each instruction is translated in. */
  predicate GuardsFrom(trace: seq<Inst>, i: nat, a: Allocation)
    requires i <= |trace|
    decreases |trace| - i
  {
    i < |trace| ==>
      && TemplateOk(PreWork(a, trace[i], LiveAfter(trace, i)).a, trace[i])
      && GuardsFrom(trace, i + 1, CompileInst(trace, i, a).a)
  }

  /** A trace the translator accepts and translates faithfully. */
  predicate Translatable(trace: seq<Inst>) {
    IsTrace(trace) && Supported(trace) && GuardsFrom(trace, 0, InitialAllocation())
  }

  // ----- what allocation around an instruction keeps -----

  /** Every mapped register is in the set. */
  ghost predicate MappedIn(a: Allocation, live: set<Reg>)
  {
    forall r :: Mapped(a, r) ==> r in live
  }

  /** The registers an instruction names. */
  predicate Names(i: Inst, r: Reg) {
    i.Reads(r) || i.Writes(r)
  }

  /** From a to b the registers of `wanted` have been given host registers in turn, as far as the pool goes. */
  ghost predicate Served(a: Allocation, b: Allocation, wanted: set<Reg>) {
    && (forall r :: r in wanted && r != 0 ==> b.place[r].R? || b.pool == [])
    && (forall r: Reg :: r !in wanted || r == 0 || a.place[r].R? ==> b.place[r] == a.place[r])
    && (forall r: Reg :: b.place[r] != a.place[r] ==> !a.place[r].R? && b.place[r].R? && b.place[r].h in a.pool)
    && |b.pool| <= |a.pool| && b.pool == a.pool[|a.pool| - |b.pool|..]
  }

  lemma AllocateIfServes(b: bool, a: Allocation, r: Reg, load: bool)
    ensures Served(a, AllocateIf(b, a, r, load).a, if b then {r} else {})
  {
    if b && r != 0 {
      AllocateEffect(a, r, load);
    }
  }

  lemma ServedBoth(a: Allocation, b: Allocation, c: Allocation, x: set<Reg>, y: set<Reg>)
    requires Served(a, b, x) && Served(b, c, y)
    ensures Served(a, c, x + y)
  {
    forall r: Reg | c.place[r] != a.place[r]
      ensures !a.place[r].R? && c.place[r].R? && c.place[r].h in a.pool
    {
    }
  }

  /** Before the instruction's own code every live register it names, x0 apart, is in a host register unless the
      pool has run out; nothing else moves, and the pool is used from the front. */
  lemma PreWorkServes(a: Allocation, i: Inst, live: set<Reg>)
    ensures Served(a, PreWork(a, i, live).a, set r: Reg | Names(i, r) && r in live)
  {
    hide AllocateIf, Served, OpcodeOf;
    var b1, b2, b3 := i.IsRs1() && i.rs1 in live, i.IsRs2() && i.rs2 in live, i.IsRd() && i.rd in live;
    var x := AllocateIf(b1, a, i.rs1, true);
    var y := AllocateIf(b2, x.a, i.rs2, true);
    AllocateIfServes(b1, a, i.rs1, true);
    AllocateIfServes(b2, x.a, i.rs2, true);
    AllocateIfServes(b3, y.a, i.rd, false);
    var r1, r2, r3 := if b1 then {i.rs1} else {}, if b2 then {i.rs2} else {}, if b3 then {i.rd} else {};
    ServedBoth(a, x.a, y.a, r1, r2);
    ServedBoth(a, y.a, PreWork(a, i, live).a, r1 + r2, r3);
    assert (set r: Reg | Names(i, r) && r in live) == r1 + r2 + r3;
  }

  /** Just the sources that got a host register are loaded, each once, rs1 first. */
  lemma PreWorkLoads(a: Allocation, i: Inst, live: set<Reg>)
    ensures var c := PreWork(a, i, live);
      c.code == LoadIfMoved(a, c.a, i.IsRs1(), i.rs1) + LoadIfMoved(a, c.a, i.IsRs2() && i.rs2 != i.rs1, i.rs2)
  {
    hide OpcodeOf, AllocateIf, Names;
    var b1, b2, b3 := i.IsRs1() && i.rs1 in live, i.IsRs2() && i.rs2 in live, i.IsRd() && i.rd in live;
    var x := AllocateIf(b1, a, i.rs1, true);
    var y := AllocateIf(b2, x.a, i.rs2, true);
    AllocateIfLoads(b1, a, i.rs1, true);
    AllocateIfLoads(b2, x.a, i.rs2, true);
    AllocateIfLoads(b3, y.a, i.rd, false);
  }

  lemma AllocateIfLoads(b: bool, a: Allocation, r: Reg, load: bool)
    ensures var c := AllocateIf(b, a, r, load);
      && c.code == LoadIfMoved(a, c.a, load, r)
      && (forall t: Reg :: t != r || !b || t == 0 || a.place[t].R? || a.pool == [] ==> c.a.place[t] == a.place[t])
      && (b && r != 0 ==> c.a.place[r].R? || c.a.pool == []) && (a.pool == [] ==> c.a.pool == [])
  {
    if b && r != 0 {
      AllocateEffect(a, r, load);
    }
  }

  function LoadIfMoved(a: Allocation, b: Allocation, source: bool, r: Reg): seq<Instr> {
    if source && r != 0 && b.place[r] != a.place[r] then [Mov(b.place[r], Slot(r))] else []
  }

  /** After the instruction every dead register it names is back in its slot, and nothing else moves. */
  lemma PostWorkReturns(a: Allocation, i: Inst, live: set<Reg>)
    ensures var b := PostWork(a, i, live).a;
      && (forall r: Reg :: Names(i, r) && r !in live && r != 0 ==>
            b.place[r] == if a.place[r].R? then Slot(r) else a.place[r])
      && (forall r: Reg :: !(Names(i, r) && r !in live) || r == 0 ==> b.place[r] == a.place[r])
      && a.pool <= b.pool
  {
    hide OpcodeOf;
  }

  lemma AllocateIfMaps(b: bool, a: Allocation, r: Reg, load: bool, live: set<Reg>)
    requires Inv(a) && MappedIn(a, live) && (b ==> r in live)
    ensures Inv(AllocateIf(b, a, r, load).a) && MappedIn(AllocateIf(b, a, r, load).a, live)
  {
    if b && r != 0 {
      AllocateKeepsInv(a, r, load);
    }
  }

  lemma AllocateIfSound(b: bool, a: Allocation, r: Reg, load: bool, s: GState, m: Machine)
    requires Inv(a) && Rep(a, s, m, 0)
    ensures var c := AllocateIf(b, a, r, load);
      Rep(c.a, s, Run(c.code, m), if load || c.a == a then 0 else r) && Run(c.code, m).base == m.base
  {
    hide Inv, Rep, Allocate;
    if b && r != 0 {
      AllocateSound(a, r, load, s, m);
    }
  }

  /** A source that is live is mapped before the destination is looked at, or the pool is empty. */
  lemma SkipsOnlyUnread(a: Allocation, i: Inst, live: set<Reg>)
    ensures var x := AllocateIf(i.IsRs1() && i.rs1 in live, a, i.rs1, true);
      var y := AllocateIf(i.IsRs2() && i.rs2 in live, x.a, i.rs2, true);
      var z := AllocateIf(i.IsRd() && i.rd in live, y.a, i.rd, false);
      z.a != y.a ==> MaySkip(i, i.rd)
  {
  }

  /** Before the instruction's own code everything is in place, but for a destination that it does
      not read and that was given a register without loading it. */
  lemma PreWorkSound(a: Allocation, i: Inst, live: set<Reg>, s: GState, m: Machine, all: set<Reg>) returns (skip: int)
    requires Inv(a) && Rep(a, s, m, 0) && MappedIn(a, all) && live <= all
    ensures var c := PreWork(a, i, live);
      && Inv(c.a) && MappedIn(c.a, all) && Run(c.code, m).base == m.base
      && MaySkip(i, skip) && Rep(c.a, s, Run(c.code, m), skip)
  {
    var b1, b2, b3 := i.IsRs1() && i.rs1 in live, i.IsRs2() && i.rs2 in live, i.IsRd() && i.rd in live;
    var x := AllocateIf(b1, a, i.rs1, true);
    var y := AllocateIf(b2, x.a, i.rs2, true);
    var z := AllocateIf(b3, y.a, i.rd, false);
    assert PreWork(a, i, live) == Coded(x.code + y.code + z.code, z.a);
    assert MaySkip(i, 0);
    SkipsOnlyUnread(a, i, live);
    hide Inv, Rep, Run, AllocateIf, Mapped, PreWork, MappedIn, MaySkip;
    AllocateIfMaps(b1, a, i.rs1, true, all);
    AllocateIfMaps(b2, x.a, i.rs2, true, all);
    AllocateIfMaps(b3, y.a, i.rd, false, all);
    AllocateIfSound(b1, a, i.rs1, true, s, m);
    AllocateIfSound(b2, x.a, i.rs2, true, s, Run(x.code, m));
    AllocateIfSound(b3, y.a, i.rd, false, s, Run(y.code, Run(x.code, m)));
    Run3(x.code, y.code, z.code, m);
    skip := if z.a == y.a then 0 else i.rd;
  }

  lemma DeallocateIfMaps(b: bool, a: Allocation, r: Reg)
    requires Inv(a)
    ensures Inv(DeallocateIf(b, a, r).a)
    ensures forall t :: Mapped(DeallocateIf(b, a, r).a, t) ==> Mapped(a, t) && (b ==> t != r)
  {
    if b && r != 0 {
      DeallocateKeepsInv(a, r);
    }
  }

  lemma DeallocateIfSound(b: bool, a: Allocation, r: Reg, s: GState, m: Machine)
    requires Inv(a) && Rep(a, s, m, 0)
    ensures var c := DeallocateIf(b, a, r);
      Rep(c.a, s, Run(c.code, m), 0) && Run(c.code, m).base == m.base
  {
    hide Inv, Rep, Deallocate;
    if b && r != 0 {
      DeallocateSound(a, r, s, m);
    }
  }

  lemma DiesHere(i: Inst, live: set<Reg>, r: int)
    requires r in LiveBefore(i, live) + live && r !in live
    ensures (i.IsRs1() && i.rs1 == r) || (i.IsRs2() && i.rs2 == r)
  {
  }

  /** After the instruction only live registers stay mapped. */
  lemma PostWorkMaps(a: Allocation, i: Inst, live: set<Reg>)
    requires Inv(a) && MappedIn(a, LiveBefore(i, live) + live)
    ensures Inv(PostWork(a, i, live).a) && MappedIn(PostWork(a, i, live).a, live)
  {
    var b1, b2, b3 := i.IsRs1() && i.rs1 !in live, i.IsRs2() && i.rs2 !in live, i.IsRd() && i.rd !in live;
    var x := DeallocateIf(b1, a, i.rs1);
    var y := DeallocateIf(b2, x.a, i.rs2);
    var z := DeallocateIf(b3, y.a, i.rd);
    assert PostWork(a, i, live).a == z.a;
    hide Inv, DeallocateIf, Mapped, PostWork, LiveBefore;
    DeallocateIfMaps(b1, a, i.rs1);
    DeallocateIfMaps(b2, x.a, i.rs2);
    DeallocateIfMaps(b3, y.a, i.rd);
    forall r | Mapped(z.a, r)
      ensures r in live
    {
      assert Mapped(y.a, r) && Mapped(x.a, r) && Mapped(a, r);
      if r !in live {
        DiesHere(i, live, r);
      }
    }
  }

  lemma PostWorkSound(a: Allocation, i: Inst, live: set<Reg>, s: GState, m: Machine)
    requires Inv(a) && Rep(a, s, m, 0)
    ensures var c := PostWork(a, i, live);
      Rep(c.a, s, Run(c.code, m), 0) && Run(c.code, m).base == m.base
  {
    var b1, b2, b3 := i.IsRs1() && i.rs1 !in live, i.IsRs2() && i.rs2 !in live, i.IsRd() && i.rd !in live;
    var x := DeallocateIf(b1, a, i.rs1);
    var y := DeallocateIf(b2, x.a, i.rs2);
    DeallocateIfMaps(b1, a, i.rs1);
    DeallocateIfMaps(b2, x.a, i.rs2);
    hide Inv, Rep, Run, DeallocateIf, Mapped;
    DeallocateIfSound(b1, a, i.rs1, s, m);
    DeallocateIfSound(b2, x.a, i.rs2, s, Run(x.code, m));
    DeallocateIfSound(b3, y.a, i.rd, s, Run(y.code, Run(x.code, m)));
    Run3(x.code, y.code, DeallocateIf(b3, y.a, i.rd).code, m);
  }

  // ----- the allocation along a whole trace -----

  /** The allocation before instruction i, and at i == |trace| the final one. */
  function AllocationAt(trace: seq<Inst>, i: nat): Allocation
    requires i <= |trace|
  {
    if i == 0 then InitialAllocation() else CompileInst(trace, i - 1, AllocationAt(trace, i - 1)).a
  }

  lemma PreWorkMaps(a: Allocation, i: Inst, live: set<Reg>, all: set<Reg>)
    requires Inv(a) && MappedIn(a, all) && live <= all
    ensures Inv(PreWork(a, i, live).a) && MappedIn(PreWork(a, i, live).a, all)
  {
    hide Inv, AllocateIf, MappedIn;
    var x := AllocateIf(i.IsRs1() && i.rs1 in live, a, i.rs1, true);
    var y := AllocateIf(i.IsRs2() && i.rs2 in live, x.a, i.rs2, true);
    AllocateIfMaps(i.IsRs1() && i.rs1 in live, a, i.rs1, true, all);
    AllocateIfMaps(i.IsRs2() && i.rs2 in live, x.a, i.rs2, true, all);
    AllocateIfMaps(i.IsRd() && i.rd in live, y.a, i.rd, false, all);
  }

  lemma {:induction false} DeallocateFromMaps(a: Allocation, r: nat, all: set<Reg>)
    requires Inv(a) && 0 < r <= 32 && MappedIn(a, all)
    ensures Inv(DeallocateFrom(a, r).a) && MappedIn(DeallocateFrom(a, r).a, all)
    decreases 32 - r
  {
    hide Inv, Deallocate;
    if r < 32 {
      DeallocateKeepsInv(a, r);
      DeallocateFromMaps(Deallocate(a, r).a, r + 1, all);
    }
  }

  lemma TranslateMaps(a: Allocation, i: Inst, off: nat, all: set<Reg>)
    requires Inv(a) && MappedIn(a, all)
    ensures Inv(Translate(a, i, off).a) && MappedIn(Translate(a, i, off).a, all)
  {
    hide Inv, MappedIn, PlainCode, Compare, ExitTail, LoopTail, DeallocateFrom;
    DeallocateFromMaps(a, 1, all);
  }

  /** At every instruction boundary of every trace the mapping is injective, the mapped host registers and
      the pool together are the six initial ones, and every mapped register is live. */
  lemma {:induction false} AllocationInvariant(trace: seq<Inst>, i: nat)
    requires i <= |trace|
    ensures Inv(AllocationAt(trace, i)) && MappedIn(AllocationAt(trace, i), if i == 0 then {} else LiveAfter(trace, i - 1))
  {
    hide Inv, MappedIn, PreWork, PostWork, Translate, InitialAllocation, LiveAfter, LiveBefore;
    if i == 0 {
      NothingMappedYet();
    } else {
      AllocationInvariant(trace, i - 1);
      var a, inst, live := AllocationAt(trace, i - 1), trace[i - 1], LiveAfter(trace, i - 1);
      var all := LiveBefore(inst, live) + live;
      MappedStillLive(trace, i - 1, a);
      PreWorkMaps(a, inst, live, all);
      TranslateMaps(PreWork(a, inst, live).a, inst, 4 * (i - 1), all);
      PostWorkMaps(Translate(PreWork(a, inst, live).a, inst, 4 * (i - 1)).a, inst, live);
    }
  }

  lemma NothingMappedYet()
    ensures Inv(InitialAllocation()) && MappedIn(InitialAllocation(), {})
  {
    InitialInv();
  }

  lemma MappedStillLive(trace: seq<Inst>, i: nat, a: Allocation)
    requires i < |trace| && MappedIn(a, if i == 0 then {} else LiveAfter(trace, i - 1))
    ensures MappedIn(a, LiveBefore(trace[i], LiveAfter(trace, i)) + LiveAfter(trace, i))
  {
  }

  /** Once the trace is compiled no register is mapped: every guest register is in its slot without any
      closing write-back. */
  lemma NothingMappedAtEnd(trace: seq<Inst>)
    requires |trace| > 0
    ensures forall r :: !Mapped(AllocationAt(trace, |trace|), r)
  {
    hide Inv, AllocationAt, LiveBefore;
    AllocationInvariant(trace, |trace|);
  }

  // ----- traces the translator gets right -----

  /** With a host register to spare, an operation on registers is only dropped when both its destination and its
      second source are dead afterwards. */
  lemma SpareRegisterIsOk(a: Allocation, i: Inst, live: set<Reg>)
    requires Inv(a) && PreWork(a, i, live).a.pool != []
    requires i.cmd in {ADD, SUB, XOR, OR, AND} && (i.rd in live || i.rs2 in live)
    ensures TemplateOk(PreWork(a, i, live).a, i)
  {
    hide PreWork, Inv;
    PreWorkServes(a, i, live);
    assert Names(i, i.rd) && Names(i, i.rs2);
  }

  /** sub x5, x0, x6; sub x7, x5, x6; jalr x0, 0(x1) */
  const NEGATE_TWICE: seq<Inst> := [Inst(SUB, 5, 0, 6, 0), Inst(SUB, 7, 5, 6, 0), Inst(JALR, 0, 1, 0, 0)]

  lemma LiveInExample()
    ensures LiveAfter(NEGATE_TWICE, 2) == {} && LiveAfter(NEGATE_TWICE, 1) == {1}
    ensures LiveAfter(NEGATE_TWICE, 0) == {1, 5, 6}
  {
    assert LiveBefore(NEGATE_TWICE[2], {}) == {1};
    assert LiveBefore(NEGATE_TWICE[1], {1}) == {1, 5, 6};
  }

  /** Allocation puts x6 and x5 into host registers, so the first subtraction, of x0, is not lost. */
  lemma ExampleIsTranslatable()
    ensures Translatable(NEGATE_TWICE)
    ensures var a := PreWork(InitialAllocation(), NEGATE_TWICE[0], LiveAfter(NEGATE_TWICE, 0)).a;
            a.place[6] == R(ESI) && a.place[5] == R(ECX)
  {
    hide PreWork, PostWork, LiveAfter, TemplateOk, Translate;
    LiveInExample();
    var a := InitialAllocation();
    FirstInExample(a);
    var b := CompileInst(NEGATE_TWICE, 0, a).a;
    SecondInExample(b);
    var c := CompileInst(NEGATE_TWICE, 1, b).a;
    JumpIsOk(PreWork(c, NEGATE_TWICE[2], {}).a, NEGATE_TWICE[2]);
    assert GuardsFrom(NEGATE_TWICE, 3, CompileInst(NEGATE_TWICE, 2, c).a);
    assert GuardsFrom(NEGATE_TWICE, 2, c);
    assert GuardsFrom(NEGATE_TWICE, 1, b);
  }

  lemma FirstInExample(a: Allocation)
    requires a == InitialAllocation()
    ensures var i, live := Inst(SUB, 5, 0, 6, 0), {1, 5, 6};
      var pre := PreWork(a, i, live).a;
      && pre.place[6] == R(ESI) && pre.place[5] == R(ECX) && pre.place[7] == Slot(7) && TemplateOk(pre, i)
      && PostWork(Translate(pre, i, 0).a, i, live).a == pre
  {
  }

  lemma SecondInExample(a: Allocation)
    requires a.place[6] == R(ESI) && a.place[5] == R(ECX) && !a.place[7].R?
    ensures TemplateOk(PreWork(a, Inst(SUB, 7, 5, 6, 0), {1}).a, Inst(SUB, 7, 5, 6, 0))
  {
  }

  lemma JumpIsOk(a: Allocation, i: Inst)
    requires i.cmd == JALR
    ensures TemplateOk(a, i)
  {
  }
}
