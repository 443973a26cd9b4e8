/** Liveness of guest registers and their on-the-fly allocation to six host registers. */
module Alloc {
  import opened Words
  import opened Isa
  import opened Guest
  import opened Host

  // ----- liveness -----

  /** Registers read later, seen from before an instruction, given those seen from after it. */
  function LiveBefore(inst: Inst, after: set<Reg>): set<Reg> {
    (if inst.IsRd() then after - {inst.rd} else after)
    + (if inst.IsRs1() then {inst.rs1} else {})
    + (if inst.IsRs2() then {inst.rs2} else {})
  }

  /** Registers live after instruction i. */
  function LiveAfter(trace: seq<Inst>, i: nat): set<Reg>
    requires i < |trace|
    decreases |trace| - i
  {
    if i == |trace| - 1 then {} else LiveBefore(trace[i + 1], LiveAfter(trace, i + 1))
  }

  /** Some later instruction reads r and none between writes it. */
  ghost predicate ReadLater(trace: seq<Inst>, i: nat, r: Reg) {
    exists j :: i < j < |trace| && trace[j].Reads(r) && forall k :: i < k < j ==> !trace[k].Writes(r)
  }

  lemma {:induction false} LivenessIsExact(trace: seq<Inst>, i: nat, r: Reg)
    requires i < |trace|
    ensures r in LiveAfter(trace, i) <==> ReadLater(trace, i, r)
    decreases |trace| - i
  {
    if i < |trace| - 1 {
      LivenessIsExact(trace, i + 1, r);
      if trace[i + 1].Reads(r) {
        assert ReadLater(trace, i, r);
      } else if trace[i + 1].Writes(r) {
      } else if r in LiveAfter(trace, i + 1) {
        var j :| i + 1 < j < |trace| && trace[j].Reads(r) && forall k :: i + 1 < k < j ==> !trace[k].Writes(r);
        assert forall k :: i < k < j ==> !trace[k].Writes(r);
        assert ReadLater(trace, i, r);
      }
    }
  }

  // ----- allocator state -----

  /** `reg_mapping_` and `reg_pool_`. */
  datatype AllocationRep = Allocation(place: seq<Operand>, pool: seq<HostReg>)

  type Allocation = a: AllocationRep | |a.place| == 32
    witness AllocationRep.Allocation(seq(32, _ => Imm(0)), [])

  const INITIAL_POOL: seq<HostReg> := [ESI, ECX, R8D, R9D, R10D, R11D]

  function InitialAllocation(): Allocation {
    AllocationRep.Allocation(seq(32, i => if 0 < i < 32 then Slot(i) else Imm(0)), INITIAL_POOL)
  }

  predicate Mapped(a: Allocation, r: int)
  {
    0 < r < 32 && a.place[r].R?
  }

  /** Registers live in their own slot or in a host register of their own; the host registers in use
      and those in the pool are together the six initial ones, each exactly once. */
  ghost predicate Inv(a: Allocation) {
    && (forall r :: 0 < r < 32 ==> a.place[r] == Slot(r) || a.place[r].R?)
    && (forall r :: Mapped(a, r) ==> a.place[r].h in INITIAL_POOL && a.place[r].h !in a.pool)
    && (forall r, t :: Mapped(a, r) && Mapped(a, t) && r != t ==> a.place[r] != a.place[t])
    && (forall i :: 0 <= i < |a.pool| ==> a.pool[i] in INITIAL_POOL)
    && (forall i, j :: 0 <= i < j < |a.pool| ==> a.pool[i] != a.pool[j])
    && (forall h :: h in INITIAL_POOL ==> h in a.pool || exists r :: Mapped(a, r) && a.place[r].h == h)
  }

  lemma InitialInv()
    ensures Inv(InitialAllocation())
    ensures forall r :: !Mapped(InitialAllocation(), r)
  {
  }

  /** `getReg`: the operand standing for a guest register. */
  function RegOpnd(a: Allocation, r: Reg): Operand
  {
    if r == 0 then Imm(0) else a.place[r]
  }

  datatype Coded = Coded(code: seq<Instr>, a: Allocation)

  function Allocate(a: Allocation, r: Reg, load: bool): Coded
    requires r != 0
  {
    if a.place[r].R? || a.pool == [] then Coded([], a)
    else
      var h := a.pool[0];
      Coded(if load then Emit(Mov(R(h), Slot(r))) else [], AllocationRep.Allocation(a.place[r := R(h)], a.pool[1..]))
  }

  /** Every caller asks for the write-back to the slot. */
  function Deallocate(a: Allocation, r: Reg): Coded
    requires r != 0
  {
    if !a.place[r].R? then Coded([], a)
    else
      Coded(Emit(Mov(Slot(r), a.place[r])), AllocationRep.Allocation(a.place[r := Slot(r)], a.pool + [a.place[r].h]))
  }

  function DeallocateFrom(a: Allocation, r: nat): (c: Coded)
    requires 0 < r <= 32
    decreases 32 - r
  {
    if r == 32 then Coded([], a)
    else
      var first := Deallocate(a, r);
      var rest := DeallocateFrom(first.a, r + 1);
      Coded(first.code + rest.code, rest.a)
  }

  // ----- what the allocator does -----

  /** A register in a host register stays, and so does everything when the pool is empty. Otherwise r goes to the
      first of the pool, which loses that one, and a load from the slot is emitted just when asked for. */
  lemma AllocateEffect(a: Allocation, r: Reg, load: bool)
    requires r != 0
    ensures var c := Allocate(a, r, load);
      if a.place[r].R? || a.pool == [] then c.a == a && c.code == []
      else
        && a.pool == [c.a.place[r].h] + c.a.pool && c.a.place[r].R?
        && (forall t: Reg :: t != r ==> c.a.place[t] == a.place[t])
        && c.code == if load then [Mov(c.a.place[r], Slot(r))] else []
  {
  }

  /** A register in a host register goes back to its slot, with one store, and its host register to the end of
      the pool. */
  lemma DeallocateEffect(a: Allocation, r: Reg)
    requires r != 0
    ensures var c := Deallocate(a, r);
      if !a.place[r].R? then c.a == a && c.code == []
      else
        && c.a.pool == a.pool + [a.place[r].h] && c.a.place[r] == Slot(r)
        && (forall t: Reg :: t != r ==> c.a.place[t] == a.place[t])
        && c.code == [Mov(Slot(r), a.place[r])]
  {
  }

  // ----- what the allocator keeps -----

  lemma AllocateKeepsInv(a: Allocation, r: Reg, load: bool)
    requires Inv(a) && r != 0
    ensures Inv(Allocate(a, r, load).a)
    ensures forall t :: Mapped(Allocate(a, r, load).a, t) ==> Mapped(a, t) || t == r
    ensures forall t :: 0 < t < 32 && t != r ==> Allocate(a, r, load).a.place[t] == a.place[t]
  {
    if !(a.place[r].R? || a.pool == []) {
      TakeKeepsInv(a, r);
    }
  }

  /** Taking the first pool register for r. */
  lemma TakeKeepsInv(a: Allocation, r: Reg)
    requires Inv(a) && r != 0 && !a.place[r].R? && a.pool != []
    ensures var b := AllocationRep.Allocation(a.place[r := R(a.pool[0])], a.pool[1..]);
      Inv(b) && forall t :: Mapped(b, t) ==> Mapped(a, t) || t == r
  {
    var h, b := a.pool[0], AllocationRep.Allocation(a.place[r := R(a.pool[0])], a.pool[1..]);
    assert forall t :: 0 < t < 32 && t != r ==> b.place[t] == a.place[t];
    assert forall i :: 0 <= i < |b.pool| ==> b.pool[i] == a.pool[i + 1];
    forall g | g in INITIAL_POOL
      ensures g in b.pool || exists t :: Mapped(b, t) && b.place[t].h == g
    {
      TakeCovers(a, r, g);
    }
  }

  lemma TakeCovers(a: Allocation, r: Reg, g: HostReg)
    requires r != 0 && !a.place[r].R? && a.pool != [] && (g in a.pool || exists t :: Mapped(a, t) && a.place[t].h == g)
    ensures var b := AllocationRep.Allocation(a.place[r := R(a.pool[0])], a.pool[1..]);
      g in b.pool || exists t :: Mapped(b, t) && b.place[t].h == g
  {
    var b := AllocationRep.Allocation(a.place[r := R(a.pool[0])], a.pool[1..]);
    assert Mapped(b, r) && b.place[r].h == a.pool[0];
    assert a.pool == [a.pool[0]] + b.pool;
    if g !in a.pool {
      var t :| Mapped(a, t) && a.place[t].h == g;
      assert Mapped(b, t) && b.place[t].h == g;
    }
  }

  lemma DeallocateKeepsInv(a: Allocation, r: Reg)
    requires Inv(a) && r != 0
    ensures Inv(Deallocate(a, r).a)
    ensures forall t :: Mapped(Deallocate(a, r).a, t) <==> Mapped(a, t) && t != r
    ensures forall t :: 0 < t < 32 && t != r ==> Deallocate(a, r).a.place[t] == a.place[t]
  {
    var b := Deallocate(a, r).a;
    if a.place[r].R? {
      assert Mapped(a, r);
      assert forall t :: 0 < t < 32 && t != r ==> b.place[t] == a.place[t];
      forall g | g in INITIAL_POOL
        ensures g in b.pool || exists t :: Mapped(b, t) && b.place[t].h == g
      {
        ReturnCovers(a, r, g);
      }
    }
  }

  lemma ReturnCovers(a: Allocation, r: Reg, g: HostReg)
    requires r != 0 && a.place[r].R? && (g in a.pool || exists t :: Mapped(a, t) && a.place[t].h == g)
    ensures var b := Deallocate(a, r).a; g in b.pool || exists t :: Mapped(b, t) && b.place[t].h == g
  {
    var b := Deallocate(a, r).a;
    if g !in a.pool {
      var t :| Mapped(a, t) && a.place[t].h == g;
      if t == r {
        assert b.pool[|a.pool|] == g;
      } else {
        assert Mapped(b, t) && b.place[t].h == g;
      }
    }
  }

  // ----- the simulation relation -----

  /** The machine holds guest state s: every register except `skip` is exactly where its operand says,
      pc, memory and the instruction counter are in the State structure. */
  ghost predicate Rep(a: Allocation, s: GState, m: Machine, skip: int)
  {
    && m.ok && m.g.pc == s.pc && m.g.mem == s.mem && m.g.executed == s.executed
    && forall r {:trigger s.regs[r]} {:trigger a.place[r]} :: 0 < r < 32 && r != skip ==> Read(a.place[r], m) == s.regs[r]
  }

  /** Only the temporaries eax and edx, the upper half of rax and the flags may differ. */
  ghost predicate SameButTemps(m: Machine, n: Machine) {
    m.g == n.g && m.base == n.base && m.ok == n.ok && forall h :: 2 <= h < 8 ==> m.r[h] == n.r[h]
  }

  lemma TempsAreFree(a: Allocation, s: GState, m: Machine, n: Machine, skip: int)
    requires Inv(a) && Rep(a, s, m, skip) && SameButTemps(m, n)
    ensures Rep(a, s, n, skip)
    ensures forall r: Reg :: Read(RegOpnd(a, r), n) == Read(RegOpnd(a, r), m)
  {
  }

  lemma ReadsTheGuest(a: Allocation, s: GState, m: Machine, skip: int, r: Reg)
    requires Inv(a) && Rep(a, s, m, skip) && (r == 0 || r != skip)
    ensures Read(RegOpnd(a, r), m) == s.regs[r]
  {
  }

  /** Writing the operand of a register changes that register and no other. */
  lemma WriteRegister(a: Allocation, s: GState, m: Machine, r: Reg, v: Word, skip: int)
    requires Inv(a) && r != 0 && Rep(a, s, m, skip) && (skip == r || skip == 0)
    ensures Rep(a, SetReg(s, r, v), Write(a.place[r], v, m), 0)
  {
  }

  lemma AllocateSound(a: Allocation, r: Reg, load: bool, s: GState, m: Machine)
    requires Inv(a) && r != 0 && Rep(a, s, m, 0)
    ensures var c := Allocate(a, r, load);
      && Rep(c.a, s, Run(c.code, m), if load || c.a == a then 0 else r)
      && Run(c.code, m).base == m.base
  {
  }

  lemma DeallocateSound(a: Allocation, r: Reg, s: GState, m: Machine)
    requires Inv(a) && r != 0 && Rep(a, s, m, 0)
    ensures var c := Deallocate(a, r);
      && Rep(c.a, s, Run(c.code, m), 0)
      && Run(c.code, m).flags == m.flags && Run(c.code, m).base == m.base
      && Straight(c.code)
  {
  }

  /** Write-backs of all registers keep the flags and leave every register in its slot. */
  lemma {:induction false} DeallocateFromSound(a: Allocation, r: nat, s: GState, m: Machine)
    requires Inv(a) && 0 < r <= 32 && Rep(a, s, m, 0)
    requires forall t :: Mapped(a, t) ==> t >= r
    ensures var c := DeallocateFrom(a, r);
      && Inv(c.a) && (forall t :: !Mapped(c.a, t))
      && Rep(c.a, s, Run(c.code, m), 0)
      && Run(c.code, m).flags == m.flags && Run(c.code, m).base == m.base
      && Straight(c.code)
    decreases 32 - r
  {
    hide Inv, Rep, Deallocate, Read, Exec;
    if r < 32 {
      var first := Deallocate(a, r);
      DeallocateKeepsInv(a, r);
      DeallocateSound(a, r, s, m);
      var n := Run(first.code, m);
      DeallocateFromSound(first.a, r + 1, s, n);
      RunAppend(first.code, DeallocateFrom(first.a, r + 1).code, m);
    }
  }

  /** With nothing mapped, the State structure alone is the guest state. */
  lemma SlotsAreTheState(a: Allocation, s: GState, m: Machine)
    requires Inv(a) && Rep(a, s, m, 0) && forall r :: !Mapped(a, r)
    ensures m.g == s
  {
  }
}
