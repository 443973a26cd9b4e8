/** What each shared template computes, for every placement and aliasing of its operands. */
module TemplateLaws {
  import opened Words
  import opened Guest
  import opened Host
  import opened Alloc
  import opened Templates

  /** Operands that stand for guest registers: immediate 0, a slot, or a pool register. */
  predicate IsPlace(o: Operand) {
    o == Imm(0) || o.Slot? || (o.R? && o.h >= 2)
  }

  // ----- algebra of reads and writes -----

  /** Equal up to the flags. */
  predicate EqButFlags(m: Machine, n: Machine) {
    n == m.(flags := n.flags)
  }

  lemma ReadAfterWrite(o: Operand, d: Operand, v: Word, m: Machine)
    ensures Read(o, Write(d, v, m)) == if o == d && !d.IsImm() then v else Read(o, m)
  {
  }

  /** Reading o after running code that wrote v to d. */
  lemma ReadBack(o: Operand, d: Operand, v: Word, m: Machine, n: Machine)
    requires EqButFlags(Write(d, v, m), n)
    ensures Read(o, n) == if o == d && !d.IsImm() then v else Read(o, m)
  {
  }

  lemma SameTrans(m: Machine, n: Machine, p: Machine)
    requires SameButTemps(m, n) && SameButTemps(n, p)
    ensures SameButTemps(m, p)
  {
  }

  /** A write to a temporary is invisible. */
  lemma SameAfterTemp(h: HostReg, v: Word, m: Machine, n: Machine)
    requires h < 2 && EqButFlags(Write(R(h), v, m), n)
    ensures SameButTemps(m, n)
  {
  }

  lemma SameReads(o: Operand, m: Machine, n: Machine)
    requires SameButTemps(m, n) && (IsPlace(o) || o.PcField?)
    ensures Read(o, n) == Read(o, m)
  {
  }

  /** The same write to machines that agree on all but the temporaries. */
  lemma SameWrites(d: Operand, v: Word, m: Machine, n: Machine, p: Machine)
    requires SameButTemps(m, n) && EqButFlags(Write(d, v, n), p)
    ensures SameButTemps(Write(d, v, m), p)
  {
  }

  lemma WriteTwice(d: Operand, u: Word, v: Word, m: Machine, n: Machine, p: Machine)
    requires SameButTemps(Write(d, u, m), n) && EqButFlags(Write(d, v, n), p)
    ensures SameButTemps(Write(d, v, m), p)
  {
  }

  // ----- single instructions -----

  lemma RunMove(d: Operand, s: Operand, m: Machine)
    ensures d.IsImm() || (d.IsMem() && s.IsMem()) ==> Run(Move(d, s), m) == m
    ensures !(d.IsMem() && s.IsMem()) ==> EqButFlags(Write(d, Read(s, m), m), Run(Move(d, s), m))
  {
    RunEmit(Bin(XorB, d, d), m);
    RunEmit(Mov(d, s), m);
    BitXorSelf(Read(d, m));
  }

  lemma RunBin(op: BinOp, d: Operand, s: Operand, m: Machine)
    ensures !Encodable(Bin(op, d, s)) ==> Run(Emit(Bin(op, d, s)), m) == m
    ensures Encodable(Bin(op, d, s)) ==>
      EqButFlags(Write(d, BinFn(op, Read(d, m), Read(s, m)), m), Run(Emit(Bin(op, d, s)), m))
  {
  }

  // ----- two- and three-instruction sequences -----

  /** mov d, s; op d, t */
  lemma MoveThenBin(d: Operand, s: Operand, op: BinOp, t: Operand, m: Machine)
    requires !d.IsImm() && !(d.IsMem() && s.IsMem()) && t != d
    ensures var v := if Encodable(Bin(op, d, t)) then BinFn(op, Read(s, m), Read(t, m)) else Read(s, m);
      SameButTemps(Write(d, v, m), Run(Move(d, s) + Emit(Bin(op, d, t)), m))
    ensures Read(d, Run(Move(d, s) + Emit(Bin(op, d, t)), m))
         == if Encodable(Bin(op, d, t)) then BinFn(op, Read(s, m), Read(t, m)) else Read(s, m)
  {
    hide BinFn, Run;
    var m1 := Run(Move(d, s), m);
    RunMove(d, s, m);
    RunAppend(Move(d, s), Emit(Bin(op, d, t)), m);
    RunBin(op, d, t, m1);
    ReadBack(d, d, Read(s, m), m, m1);
    ReadBack(t, d, Read(s, m), m, m1);
  }

  /** mov eax, s; mov d, eax */
  lemma MoveThroughEax(d: Operand, s: Operand, m: Machine)
    requires IsPlace(d) || d.PcField?
    ensures SameButTemps(Write(d, Read(s, m), m), Run(Move(R(EAX), s) + Move(d, R(EAX)), m))
  {
    hide BinFn, Run;
    var m1 := Run(Move(R(EAX), s), m);
    RunMove(R(EAX), s, m);
    RunAppend(Move(R(EAX), s), Move(d, R(EAX)), m);
    RunMove(d, R(EAX), m1);
    ReadBack(R(EAX), R(EAX), Read(s, m), m, m1);
    SameAfterTemp(EAX, Read(s, m), m, m1);
    SameWrites(d, Read(s, m), m, m1, Run(Move(d, R(EAX)), m1));
  }

  // ----- the shared templates -----

  lemma CopyComputes(d: Operand, s: Operand, m: Machine)
    requires IsPlace(d) && IsPlace(s)
    ensures SameButTemps(Write(d, Read(s, m), m), Run(CopyType(d, s), m))
  {
    if d.IsReg() || s.IsReg() {
      RunMove(d, s, m);
    } else {
      MoveThroughEax(d, s, m);
    }
  }

  /** op d, t applied after code that copied s to d. */
  lemma BinAfterCopy(copy: seq<Instr>, d: Operand, s: Operand, op: BinOp, t: Operand, m: Machine)
    requires IsPlace(d) && !d.IsImm() && t.IsImm()
    requires SameButTemps(Write(d, Read(s, m), m), Run(copy, m))
    ensures SameButTemps(Write(d, BinFn(op, Read(s, m), Read(t, m)), m), Run(copy + Emit(Bin(op, d, t)), m))
  {
    hide BinFn, Run;
    var m1 := Run(copy, m);
    RunAppend(copy, Emit(Bin(op, d, t)), m);
    RunBin(op, d, t, m1);
    SameReads(d, Write(d, Read(s, m), m), m1);
    ReadAfterWrite(d, d, Read(s, m), m);
    WriteTwice(d, Read(s, m), BinFn(op, Read(s, m), Read(t, m)), m, m1, Run(Emit(Bin(op, d, t)), m1));
  }

  lemma ImmTypeComputes(d: Operand, s: Operand, imm: Word, op: BinOp, m: Machine)
    requires IsPlace(d) && IsPlace(s)
    ensures SameButTemps(Write(d, BinFn(op, Read(s, m), imm), m), Run(ImmType(d, s, imm, op), m))
  {
    hide BinFn;
    if !d.IsImm() {
      var t := Imm(Signed(imm));
      var copy := if d == s then [] else if d.IsReg() || s.IsReg() then Move(d, s) else Move(R(EAX), s) + Move(d, R(EAX));
      if d == s {
        assert SameButTemps(Write(d, Read(s, m), m), Run(copy, m));
      } else {
        CopyComputes(d, s, m);
      }
      hide Run;
      BinAfterCopy(copy, d, s, op, t, m);
    }
  }

  lemma RegTypeComputes(d: Operand, s1: Operand, s2: Operand, op: BinOp, m: Machine)
    requires IsPlace(d) && IsPlace(s1) && IsPlace(s2) && !op.IsShift()
    ensures var v := if DropsRegType(d, s1, s2) then Read(s1, m) else BinFn(op, Read(s1, m), Read(s2, m));
      SameButTemps(Write(d, v, m), Run(RegType(d, s1, s2, op), m))
  {
    hide BinFn, Run;
    if d.IsImm() {
      RunNothing(m);
    } else if d == s1 {
      if d.IsReg() || s2.IsReg() {
        RunBin(op, d, s2, m);
      } else {
        BinThroughEax(d, s2, op, m);
      }
    } else if d != s2 && (d.IsReg() || !s1.IsMem()) {
      MoveThenBin(d, s1, op, s2, m);
    } else {
      ResultThroughEax(d, s1, s2, op, m);
    }
  }

  lemma RunNothing(m: Machine)
    ensures Run([], m) == m
  {
  }

  /** mov eax, t; op d, eax */
  lemma BinThroughEax(d: Operand, t: Operand, op: BinOp, m: Machine)
    requires IsPlace(d) && !d.IsImm() && !op.IsShift()
    ensures SameButTemps(Write(d, BinFn(op, Read(d, m), Read(t, m)), m), Run(Move(R(EAX), t) + Emit(Bin(op, d, R(EAX))), m))
  {
    hide BinFn, Run;
    var m1 := Run(Move(R(EAX), t), m);
    RunMove(R(EAX), t, m);
    RunAppend(Move(R(EAX), t), Emit(Bin(op, d, R(EAX))), m);
    RunBin(op, d, R(EAX), m1);
    ReadBack(R(EAX), R(EAX), Read(t, m), m, m1);
    ReadBack(d, R(EAX), Read(t, m), m, m1);
    SameAfterTemp(EAX, Read(t, m), m, m1);
    SameWrites(d, BinFn(op, Read(d, m), Read(t, m)), m, m1, Run(Emit(Bin(op, d, R(EAX))), m1));
  }

  /** mov eax, s; op eax, t; mov d, eax */
  lemma ResultThroughEax(d: Operand, s: Operand, t: Operand, op: BinOp, m: Machine)
    requires IsPlace(d) && !op.IsShift() && t != R(EAX)
    ensures SameButTemps(Write(d, BinFn(op, Read(s, m), Read(t, m)), m),
                         Run(Move(R(EAX), s) + Emit(Bin(op, R(EAX), t)) + Move(d, R(EAX)), m))
  {
    hide BinFn, Run;
    var front := Move(R(EAX), s) + Emit(Bin(op, R(EAX), t));
    var m2, v := Run(front, m), BinFn(op, Read(s, m), Read(t, m));
    MoveThenBin(R(EAX), s, op, t, m);
    RunAppend(front, Move(d, R(EAX)), m);
    RunMove(d, R(EAX), m2);
    assert SameButTemps(m, Write(R(EAX), v, m));
    SameTrans(m, Write(R(EAX), v, m), m2);
    SameWrites(d, v, m, m2, Run(Move(d, R(EAX)), m2));
  }

  // ----- shifts -----

  /** mov eax, ecx; mov ecx, t; op d, cl; mov ecx, eax: whatever lived in ecx is back afterwards. */
  lemma ShiftByCl(d: Operand, t: Operand, op: BinOp, m: Machine)
    requires IsPlace(d) && !d.IsImm() && IsPlace(t) && !t.IsImm() && op.IsShift()
    ensures var v := if d == R(ECX) then Read(d, m) else BinFn(op, Read(d, m), Read(t, m));
      SameButTemps(Write(d, v, m),
        Run(Move(R(EAX), R(ECX)) + Move(R(ECX), t) + Emit(Bin(op, d, R(ECX))) + Move(R(ECX), R(EAX)), m))
  {
    var x, y, z, w := Move(R(EAX), R(ECX)), Move(R(ECX), t), Emit(Bin(op, d, R(ECX))), Move(R(ECX), R(EAX));
    var m1 := Run(x, m);
    var m2 := Run(y, m1);
    var m3 := Run(z, m2);
    Run3(x, y, z, m);
    RunAppend(x + y + z, w, m);
    RunMove(R(EAX), R(ECX), m);
    RunMove(R(ECX), t, m1);
    RunBin(op, d, R(ECX), m2);
    RunMove(R(ECX), R(EAX), m3);
    hide *;
    ReadBack(t, R(EAX), Read(R(ECX), m), m, m1);
    ReadBack(R(ECX), R(ECX), Read(t, m), m1, m2);
    ReadBack(d, R(EAX), Read(R(ECX), m), m, m1);
    ReadBack(d, R(ECX), Read(t, m), m1, m2);
    EcxIsBack(d, Read(t, m), BinFn(op, Read(d, m2), Read(R(ECX), m2)), m, m1, m2, m3, Run(w, m3));
  }

  lemma EcxIsBack(d: Operand, x: Word, v: Word, m: Machine, m1: Machine, m2: Machine, m3: Machine, m4: Machine)
    requires IsPlace(d) && !d.IsImm()
    requires EqButFlags(Write(R(EAX), Read(R(ECX), m), m), m1) && EqButFlags(Write(R(ECX), x, m1), m2)
    requires EqButFlags(Write(d, v, m2), m3) && EqButFlags(Write(R(ECX), Read(R(EAX), m3), m3), m4)
    ensures SameButTemps(Write(d, if d == R(ECX) then Read(d, m) else v, m), m4)
  {
  }

  lemma ShiftFrontCopies(d: Operand, s1: Operand, m: Machine)
    requires IsPlace(d) && !d.IsImm() && IsPlace(s1)
    ensures SameButTemps(Write(d, Read(s1, m), m), Run(ShiftFront(d, s1), m))
  {
    if d.IsMem() {
      MoveThroughEax(d, s1, m);
    } else if d != s1 {
      assert ShiftFront(d, s1) == Move(d, s1);
      RunMove(d, s1, m);
    } else {
      assert ShiftFront(d, s1) == [];
    }
  }

  /** The value a shift template leaves: right unless it loses the amount or the result in ecx. */
  function ShiftValue(d: Operand, s1: Operand, s2: Operand, op: BinOp, m: Machine): Word {
    if s2.IsImm() || d == R(ECX) then Read(s1, m)
    else BinFn(op, Read(s1, m), Read(if s2 == d then s1 else s2, m))
  }

  lemma ShiftTypeComputes(d: Operand, s1: Operand, s2: Operand, op: BinOp, m: Machine)
    requires IsPlace(d) && IsPlace(s1) && IsPlace(s2) && op.IsShift()
    ensures SameButTemps(Write(d, ShiftValue(d, s1, s2, op, m), m), Run(ShiftType(d, s1, s2, op), m))
  {
    if !d.IsImm() {
      var front, m1 := ShiftFront(d, s1), Run(ShiftFront(d, s1), m);
      var x := Read(s1, m);
      ShiftFrontCopies(d, s1, m);
      SameReads(d, Write(d, x, m), m1);
      ReadAfterWrite(d, d, x, m);
      if s2.IsImm() {
        assert ShiftType(d, s1, s2, op) == front + [] == front;
      } else {
        var rest := ShiftByCount(d, s2, op);
        ShiftByCl(d, s2, op, m1);
        RunAppend(front, rest, m);
        SameReads(s2, Write(d, x, m), m1);
        ReadAfterWrite(s2, d, x, m);
        hide BinFn, Run, Move, Emit, ShiftFront, ShiftByCount;
        var v := if d == R(ECX) then Read(d, m1) else BinFn(op, Read(d, m1), Read(s2, m1));
        assert v == ShiftValue(d, s1, s2, op, m);
        WriteTwice(d, x, v, m, m1, Write(d, v, m1));
        SameTrans(Write(d, v, m), Write(d, v, m1), Run(rest, m1));
      }
    }
  }

  lemma ShiftByZero(op: BinOp, x: Word)
    requires op.IsShift()
    ensures BinFn(op, x, 0) == x
  {
  }

  lemma ShiftOfZero(op: BinOp, x: Word)
    requires op.IsShift()
    ensures BinFn(op, 0, x) == 0
  {
    DivMod(0, 0, Pow2(x % 32), 0);
  }

  // ----- compares and flags -----

  lemma CompareComputes(s1: Operand, s2: Operand, m: Machine)
    requires IsPlace(s1) && IsPlace(s2)
    ensures SameButTemps(m, Run(Compare(s1, s2), m))
    ensures Run(Compare(s1, s2), m).flags == CompareFlags(Read(s1, m), Read(s2, m))
  {
    hide CompareFlags;
    if s1.IsMem() || s1.IsImm() {
      var m1 := Run(Move(R(EAX), s1), m);
      RunMove(R(EAX), s1, m);
      RunAppend(Move(R(EAX), s1), Emit(Cmp(R(EAX), s2)), m);
      RunEmit(Cmp(R(EAX), s2), m1);
      ReadBack(s2, R(EAX), Read(s1, m), m, m1);
    } else {
      RunEmit(Cmp(s1, s2), m);
    }
  }

  lemma RunSet(c: Cond, d: Operand, m: Machine)
    requires m.flags.Known? && (d.IsImm() || Read(d, m) == 0)
    ensures EqButFlags(Write(d, Bool(Holds(c, m.flags)), m), Run(Emit(Set(c, d)), m))
  {
    hide Holds, Run, Emit, Bool, Write, Read;
    RunEmit(Set(c, d), m);
    if d.IsImm() {
      NoSet(c, d, m);
    } else {
      SetOnZero(c, d, m);
    }
  }

  lemma NoSet(c: Cond, d: Operand, m: Machine)
    requires d.IsImm()
    ensures !Encodable(Set(c, d)) && forall v :: Write(d, v, m) == m
  {
  }

  lemma SetOnZero(c: Cond, d: Operand, m: Machine)
    requires m.flags.Known? && Read(d, m) == 0 && !d.IsImm()
    ensures Encodable(Set(c, d)) && Exec(Set(c, d), m) == Write(d, Bool(Holds(c, m.flags)), m)
  {
  }

  lemma RunClear(d: Operand, m: Machine)
    ensures Run(Emit(Mov(d, Imm(0))), m) == Write(d, 0, m)
  {
  }

  lemma SetFlagComputes(d: Operand, c: Cond, m: Machine)
    requires IsPlace(d) && m.flags.Known?
    ensures SameButTemps(Write(d, Bool(Holds(c, m.flags)), m), Run(SetFlag(d, c), m))
  {
    hide Run, Holds, Emit;
    var m1, v := Write(d, 0, m), Bool(Holds(c, m.flags));
    RunClear(d, m);
    RunAppend(Emit(Mov(d, Imm(0))), Emit(Set(c, d)), m);
    assert m1.flags == m.flags;
    ReadAfterWrite(d, d, 0, m);
    RunSet(c, d, m1);
    SameRefl(m1);
    WriteTwice(d, 0, v, m, m1, Run(Emit(Set(c, d)), m1));
  }

  /** A compare that leaves the operands alone, then setcc. */
  lemma CompareThenSet(cmp: seq<Instr>, d: Operand, c: Cond, x: Word, y: Word, m: Machine)
    requires IsPlace(d) && SameButTemps(m, Run(cmp, m)) && Run(cmp, m).flags == CompareFlags(x, y)
    ensures SameButTemps(Write(d, Bool(Holds(c, CompareFlags(x, y))), m), Run(cmp + SetFlag(d, c), m))
  {
    hide Run, SetFlag;
    var m1, v := Run(cmp, m), Bool(Holds(c, CompareFlags(x, y)));
    RunAppend(cmp, SetFlag(d, c), m);
    SetFlagComputes(d, c, m1);
    SameWrites(d, v, m, m1, Write(d, v, m1));
    SameTrans(Write(d, v, m), Write(d, v, m1), Run(SetFlag(d, c), m1));
  }

  // ----- multiplication -----

  /** mov eax, s1; mul s2: without an operand in place the mul is lost and edx keeps what it had. */
  lemma MulLeaves(s1: Operand, s2: Operand, m: Machine)
    requires IsPlace(s1) && IsPlace(s2)
    ensures var n := Run(Move(R(EAX), s1) + Emit(Mul(s2)), m);
      && SameButTemps(m, n)
      && n.r[EAX] == (if s2.IsImm() then Read(s1, m) else Wrap(Read(s1, m) * Read(s2, m)))
      && n.r[EDX] == (if s2.IsImm() then m.r[EDX] else UpperHalf(Read(s1, m) * Read(s2, m)))
  {
    hide UpperHalf, Wrap, Run, Move;
    var m1 := Run(Move(R(EAX), s1), m);
    RunMove(R(EAX), s1, m);
    RunEmit(Mul(s2), m1);
    RunAppend(Move(R(EAX), s1), Emit(Mul(s2)), m);
    ReadBack(s2, R(EAX), Read(s1, m), m, m1);
  }

  /** The value a multiply template leaves in the destination. */
  function MulValue(s1: Operand, s2: Operand, half: HostReg, m: Machine): Word {
    if half == EAX then (if s2.IsImm() then Read(s1, m) else Wrap(Read(s1, m) * Read(s2, m)))
    else if s2.IsImm() then m.r[EDX]
    else UpperHalf(Read(s1, m) * Read(s2, m))
  }

  lemma MulTypeComputes(d: Operand, s1: Operand, s2: Operand, half: HostReg, m: Machine)
    requires IsPlace(d) && IsPlace(s1) && IsPlace(s2) && half < 2
    ensures SameButTemps(Write(d, MulValue(s1, s2, half, m), m), Run(MulType(d, s1, s2, half), m))
  {
    var front := Move(R(EAX), s1) + Emit(Mul(s2));
    var m2 := Run(front, m);
    MulLeaves(s1, s2, m);
    RunAppend(front, Move(d, R(half)), m);
    RunMove(d, R(half), m2);
    assert Read(R(half), m2) == MulValue(s1, s2, half, m);
    hide *;
    SameWrites(d, MulValue(s1, s2, half, m), m, m2, Run(Move(d, R(half)), m2));
  }

  // ----- guest memory -----

  lemma AddBaseIndex(x: Word, disp: int, m: Machine, n: Machine)
    requires EqButFlags(Write(R(EAX), x, m), n)
    requires m.base + |m.g.mem| <= TWO64 && 0 <= x + disp < |m.g.mem|
    ensures SameButTemps(m, Exec(AddMemBase, n))
    ensures GuestIndex(Exec(AddMemBase, n), disp) == x + disp
  {
  }

  /** rax points at the guest address, so the displacement reaches exactly the guest's bytes. */
  lemma AddressComputes(s1: Operand, disp: int, m: Machine)
    requires IsPlace(s1) && m.base + |m.g.mem| <= TWO64 && 0 <= Read(s1, m) + disp < |m.g.mem|
    ensures SameButTemps(m, Run(AddressOf(s1), m))
    ensures GuestIndex(Run(AddressOf(s1), m), disp) == Read(s1, m) + disp
  {
    hide Exec, Run, GuestIndex, Move;
    var m1 := Run(Move(R(EAX), s1), m);
    RunMove(R(EAX), s1, m);
    RunAppend(Move(R(EAX), s1), Emit(AddMemBase), m);
    RunEmit(AddMemBase, m1);
    AddBaseIndex(Read(s1, m), disp, m, m1);
  }

  /** An address beyond 32 bits, which the interpreter wraps and native code does not, is nowhere in the
      buffer, even after the 64-bit host address has wrapped. */
  lemma AddBaseOutside(x: Word, disp: int, size: nat, m: Machine, n: Machine)
    requires EqButFlags(Write(R(EAX), x, m), n) && m.base + |m.g.mem| <= TWO64 && |m.g.mem| <= WORD
    requires -HALF <= disp < HALF && !(0 <= x + disp < WORD) && size > 0
    ensures SameButTemps(m, Exec(AddMemBase, n)) && !Accessible(Exec(AddMemBase, n), disp, size)
  {
  }

  lemma AddressOutside(s1: Operand, disp: int, size: nat, m: Machine)
    requires IsPlace(s1) && m.base + |m.g.mem| <= TWO64 && |m.g.mem| <= WORD
    requires -HALF <= disp < HALF && !(0 <= Read(s1, m) + disp < WORD) && size > 0
    ensures SameButTemps(m, Run(AddressOf(s1), m)) && !Accessible(Run(AddressOf(s1), m), disp, size)
  {
    hide Exec, Run, Accessible, Move;
    var m1 := Run(Move(R(EAX), s1), m);
    RunMove(R(EAX), s1, m);
    RunAppend(Move(R(EAX), s1), Emit(AddMemBase), m);
    RunEmit(AddMemBase, m1);
    AddBaseOutside(Read(s1, m), disp, size, m, m1);
  }

  lemma LoadTailFails(d: Operand, n: nat, signed: bool, disp: int, m: Machine)
    requires IsPlace(d) && IsSize(n) && !Accessible(m, disp, n)
    ensures !Run(LoadTail(d, n, signed, disp), m).ok
  {
    hide Accessible, Extend, LoadBytes;
    if !d.IsReg() {
      var load := Emit(LoadMem(EDX, n, signed, disp));
      RunEmit(LoadMem(EDX, n, signed, disp), m);
      RunAppend(load, Move(d, R(EDX)), m);
      RunMove(d, R(EDX), Run(load, m));
    }
  }

  lemma LoadTypeFails(d: Operand, s1: Operand, imm: Word, n: nat, signed: bool, m: Machine)
    requires IsPlace(d) && IsPlace(s1) && IsSize(n) && m.base + |m.g.mem| <= TWO64 && |m.g.mem| <= WORD
    requires !(0 <= Read(s1, m) + Signed(imm) < WORD)
    ensures !Run(LoadType(d, s1, imm, n, signed), m).ok
  {
    hide Accessible, AddressOf, LoadTail, Run;
    AddressOutside(s1, Signed(imm), n, m);
    RunAppend(AddressOf(s1), LoadTail(d, n, signed, Signed(imm)), m);
    LoadTailFails(d, n, signed, Signed(imm), Run(AddressOf(s1), m));
  }

  lemma StoreTailFails(s2: Operand, disp: int, n: nat, m: Machine)
    requires IsPlace(s2) && IsSize(n) && !Accessible(m, disp, n)
    ensures !Run(StoreTail(s2, n, disp), m).ok
  {
    hide StoreBytes;
    if !s2.IsReg() {
      var m1 := Run(Move(R(EDX), s2), m);
      RunMove(R(EDX), s2, m);
      EdxIsNoAddress(Read(s2, m), disp, m, m1);
      hide Run, Move, GuestIndex;
      RunAppend(Move(R(EDX), s2), Emit(StoreMem(n, disp, EDX)), m);
      RunEmit(StoreMem(n, disp, EDX), m1);
    }
  }

  lemma StoreTypeFails(s1: Operand, s2: Operand, imm: Word, n: nat, m: Machine)
    requires IsPlace(s1) && IsPlace(s2) && IsSize(n) && m.base + |m.g.mem| <= TWO64 && |m.g.mem| <= WORD
    requires !(0 <= Read(s1, m) + Signed(imm) < WORD)
    ensures !Run(StoreType(s1, s2, imm, n), m).ok
  {
    hide Accessible, AddressOf, StoreTail, Run;
    AddressOutside(s1, Signed(imm), n, m);
    RunAppend(AddressOf(s1), StoreTail(s2, n, Signed(imm)), m);
    StoreTailFails(s2, Signed(imm), n, Run(AddressOf(s1), m));
  }

  ghost predicate InBuffer(m: Machine, va: int, n: nat) {
    IsSize(n) && m.base + |m.g.mem| <= TWO64 && 0 <= va && va + n <= |m.g.mem|
  }

  lemma RunLoad(h: HostReg, n: nat, signed: bool, disp: int, m: Machine, i: nat)
    requires IsSize(n) && GuestIndex(m, disp) == i && i + n <= |m.g.mem|
    ensures Run(Emit(LoadMem(h, n, signed, disp)), m) == Write(R(h), Extend(LoadBytes(m.g.mem, i, n), n, signed), m)
  {
  }

  /** The machine after the guest's bytes at i have changed. */
  function WithStore(m: Machine, i: nat, n: nat, v: Word): Machine
    requires IsSize(n) && i + n <= |m.g.mem|
  {
    m.(g := m.g.(mem := StoreBytes(m.g.mem, i, n, v)))
  }

  lemma RunStore(h: HostReg, n: nat, disp: int, m: Machine, i: nat)
    requires IsSize(n) && GuestIndex(m, disp) == i && i + n <= |m.g.mem|
    ensures Run(Emit(StoreMem(n, disp, h)), m) == WithStore(m, i, n, m.r[h])
  {
  }

  lemma LoadTailComputes(d: Operand, n: nat, signed: bool, disp: int, m: Machine, i: nat)
    requires IsPlace(d) && IsSize(n) && GuestIndex(m, disp) == i && i + n <= |m.g.mem|
    ensures SameButTemps(Write(d, Extend(LoadBytes(m.g.mem, i, n), n, signed), m), Run(LoadTail(d, n, signed, disp), m))
  {
    var v, h := Extend(LoadBytes(m.g.mem, i, n), n, signed), if d.IsReg() then d.h else EDX;
    var load := Emit(LoadMem(h, n, signed, disp));
    var m1 := Run(load, m);
    RunLoad(h, n, signed, disp, m, i);
    if d.IsReg() {
      SameRefl(m1);
    } else {
      RunAppend(load, Move(d, R(EDX)), m);
      RunMove(d, R(EDX), m1);
      hide Extend, LoadBytes, GuestIndex, Run, Emit, Move;
      SameAfterTemp(EDX, v, m, m1);
      ReadAfterWrite(R(EDX), R(EDX), v, m);
      SameWrites(d, v, m, m1, Run(Move(d, R(EDX)), m1));
    }
  }

  lemma SameRefl(m: Machine)
    ensures SameButTemps(m, m)
  {
  }

  lemma LoadTypeComputes(d: Operand, s1: Operand, imm: Word, n: nat, signed: bool, m: Machine)
    requires IsPlace(d) && IsPlace(s1) && InBuffer(m, Read(s1, m) + Signed(imm), n)
    ensures var v := Extend(LoadBytes(m.g.mem, Read(s1, m) + Signed(imm), n), n, signed);
      SameButTemps(Write(d, v, m), Run(LoadType(d, s1, imm, n, signed), m))
  {
    hide Extend, LoadBytes, GuestIndex, AddressOf, LoadTail, Run, Write;
    var disp, m1, i := Signed(imm), Run(AddressOf(s1), m), Read(s1, m) + Signed(imm);
    AddressComputes(s1, disp, m);
    var v := Extend(LoadBytes(m.g.mem, i, n), n, signed);
    LoadTailComputes(d, n, signed, disp, m1, i);
    RunAppend(AddressOf(s1), LoadTail(d, n, signed, disp), m);
    SameWrites(d, v, m, m1, Write(d, v, m1));
    SameTrans(Write(d, v, m), Write(d, v, m1), Run(LoadTail(d, n, signed, disp), m1));
  }

  lemma SameStores(m: Machine, n: Machine, i: nat, size: nat, v: Word)
    requires SameButTemps(m, n) && IsSize(size) && i + size <= |m.g.mem|
    ensures SameButTemps(WithStore(m, i, size, v), WithStore(n, i, size, v))
  {
  }

  lemma StoreTailComputes(s2: Operand, disp: int, n: nat, m: Machine, i: nat)
    requires IsPlace(s2) && IsSize(n) && GuestIndex(m, disp) == i && i + n <= |m.g.mem|
    ensures SameButTemps(WithStore(m, i, n, Read(s2, m)), Run(StoreTail(s2, n, disp), m))
  {
    if s2.IsReg() {
      RunStore(s2.h, n, disp, m, i);
    } else {
      var x, store, n1 := Read(s2, m), Emit(StoreMem(n, disp, EDX)), Run(Move(R(EDX), s2), m);
      RunMove(R(EDX), s2, m);
      EdxIsNoAddress(x, disp, m, n1);
      SameAfterTemp(EDX, x, m, n1);
      hide WithStore, Run, Emit, Move, GuestIndex;
      RunStore(EDX, n, disp, n1, i);
      RunAppend(Move(R(EDX), s2), store, m);
      SameStores(m, n1, i, n, x);
    }
  }

  /** A store changes the guest's bytes and nothing else that is not a temporary. */
  lemma StoreTypeComputes(s1: Operand, s2: Operand, imm: Word, n: nat, m: Machine)
    requires IsPlace(s1) && IsPlace(s2) && InBuffer(m, Read(s1, m) + Signed(imm), n)
    ensures SameButTemps(WithStore(m, Read(s1, m) + Signed(imm), n, Read(s2, m)), Run(StoreType(s1, s2, imm, n), m))
  {
    hide WithStore, AddressOf, Run, StoreTail, GuestIndex, Read;
    var disp, m1, i, x := Signed(imm), Run(AddressOf(s1), m), Read(s1, m) + Signed(imm), Read(s2, m);
    AddressComputes(s1, disp, m);
    SameReads(s2, m, m1);
    SameStores(m, m1, i, n, x);
    RunAppend(AddressOf(s1), StoreTail(s2, n, disp), m);
    StoreTailComputes(s2, disp, n, m1, i);
    SameTrans(WithStore(m, i, n, x), WithStore(m1, i, n, x), Run(StoreTail(s2, n, disp), m1));
  }

  lemma EdxIsNoAddress(x: Word, disp: int, m: Machine, n: Machine)
    requires EqButFlags(Write(R(EDX), x, m), n)
    ensures GuestIndex(n, disp) == GuestIndex(m, disp) && n.r[EDX] == x
  {
  }
}
