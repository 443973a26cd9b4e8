/** Where the reference machine stops at once: the guards of every branch that stops an instruction before it
    has changed a register or a byte of memory. */
module Stops {
  import opened Words
  import opened Isa
  import opened Guest
  import opened Arch

  // ----- the writes of a system call -----

  /** Write k is the first that is not in memory. */
  predicate FailsAt(mem: seq<Byte>, writes: seq<(Word, Byte)>, k: nat) {
    k < |writes| && OutOfMemory(mem, writes[k].0, 1) && forall j :: 0 <= j < k ==> writes[j].0 + 1 < |mem|
  }

  /** For each address among the first k writes, the last of them writes the byte that is there. */
  predicate Restores(mem: seq<Byte>, writes: seq<(Word, Byte)>, k: nat)
    requires k <= |writes| && forall j :: 0 <= j < k ==> writes[j].0 + 1 < |mem|
  {
    forall j :: 0 <= j < k && LastFor(writes, k, j) ==> writes[j].1 == mem[writes[j].0]
  }

  predicate LastFor(writes: seq<(Word, Byte)>, k: nat, j: nat)
    requires j < k <= |writes|
  {
    forall l :: j < l < k ==> writes[l].0 != writes[j].0
  }

  /** A call stops and leaves memory as it is: at once, or at a write out of memory after writes without effect. */
  predicate CallStops(mem: seq<Byte>, e: SysEffect) {
    match e
    case SysStop => true
    case SysReturn(_, writes) => exists k: nat :: k < |writes| && FailsAt(mem, writes, k) && Restores(mem, writes, k)
  }

  /** Memory after the first k writes. */
  function Written(mem: seq<Byte>, writes: seq<(Word, Byte)>, k: nat): (r: seq<Byte>)
    requires k <= |writes| && forall j :: 0 <= j < k ==> writes[j].0 + 1 < |mem|
    ensures |r| == |mem|
  {
    if k == 0 then mem else Written(mem, writes, k - 1)[writes[k - 1].0 := writes[k - 1].1]
  }

  lemma {:induction false} WriteAllPrefix(s: GState, writes: seq<(Word, Byte)>, k: nat)
    requires k <= |writes| && forall j :: 0 <= j < k ==> writes[j].0 + 1 < |s.mem|
    ensures WriteAll(s, writes) == WriteAll(s.(mem := Written(s.mem, writes, k)), writes[k..])
    decreases k
  {
    if k == 0 {
      assert writes[0..] == writes;
    } else {
      WriteAllPrefix(s, writes, k - 1);
      var rest := writes[k - 1..];
      assert rest[0] == writes[k - 1] && rest[1..] == writes[k..];
    }
  }

  lemma {:induction false} FirstFailure(mem: seq<Byte>, writes: seq<(Word, Byte)>, n: nat) returns (k: nat)
    requires n <= |writes|
    ensures k <= n && forall j :: 0 <= j < k ==> writes[j].0 + 1 < |mem|
    ensures k == n || FailsAt(mem, writes, k)
    decreases n
  {
    k := 0;
    if n > 0 {
      k := FirstFailure(mem, writes, n - 1);
      if k == n - 1 && writes[k].0 + 1 < |mem| {
        k := n;
      }
    }
  }

  /** The first write out of memory ends the call, with what was written before. */
  lemma WriteAllStops(s: GState, writes: seq<(Word, Byte)>)
    ensures WriteAll(s, writes).Stopped? <==> exists k: nat :: FailsAt(s.mem, writes, k)
    ensures forall k: nat :: FailsAt(s.mem, writes, k) ==> WriteAll(s, writes) == Stopped(s.(mem := Written(s.mem, writes, k)))
  {
    hide Written, WriteAll;
    forall k: nat | FailsAt(s.mem, writes, k)
      ensures WriteAll(s, writes) == Stopped(s.(mem := Written(s.mem, writes, k)))
    {
      WriteAllPrefix(s, writes, k);
      FailsNow(s.(mem := Written(s.mem, writes, k)), writes[k..]);
    }
    var k := FirstFailure(s.mem, writes, |writes|);
    if k == |writes| {
      WriteAllPrefix(s, writes, k);
      NothingToWrite(s.(mem := Written(s.mem, writes, k)));
    }
  }

  lemma FailsNow(s: GState, writes: seq<(Word, Byte)>)
    requires writes != [] && OutOfMemory(s.mem, writes[0].0, 1)
    ensures WriteAll(s, writes) == Stopped(s)
  {
  }

  lemma NothingToWrite(s: GState)
    ensures WriteAll(s, []) == Running(s)
  {
  }

  /** After k writes a byte is what the last of them for its address wrote, or what it was. */
  lemma {:induction false} WrittenAt(mem: seq<Byte>, writes: seq<(Word, Byte)>, k: nat, a: nat) returns (j: int)
    requires k <= |writes| && a < |mem| && forall i :: 0 <= i < k ==> writes[i].0 + 1 < |mem|
    ensures -1 <= j < k
    ensures if j == -1 then Written(mem, writes, k)[a] == mem[a]
            else writes[j].0 == a && LastFor(writes, k, j) && Written(mem, writes, k)[a] == writes[j].1
    ensures forall i :: j < i < k ==> writes[i].0 != a
    decreases k
  {
    j := -1;
    if k > 0 {
      if writes[k - 1].0 == a {
        j := k - 1;
      } else {
        j := WrittenAt(mem, writes, k - 1, a);
      }
    }
  }

  lemma RestoresExactly(mem: seq<Byte>, writes: seq<(Word, Byte)>, k: nat)
    requires k <= |writes| && forall j :: 0 <= j < k ==> writes[j].0 + 1 < |mem|
    ensures Written(mem, writes, k) == mem <==> Restores(mem, writes, k)
  {
    hide Written;
    if Restores(mem, writes, k) {
      forall a | 0 <= a < |mem|
        ensures Written(mem, writes, k)[a] == mem[a]
      {
        var j := WrittenAt(mem, writes, k, a);
      }
    } else {
      var j :| 0 <= j < k && LastFor(writes, k, j) && writes[j].1 != mem[writes[j].0];
      var i := WrittenAt(mem, writes, k, writes[j].0);
      assert i == j;
    }
  }

  lemma CallStopsExactly(sys: Sys, s: GState)
    ensures var o := SysCall(sys, s);
            o.Stopped? && o.s.regs == s.regs && o.s.mem == s.mem <==> CallStops(s.mem, sys(s.regs, s.mem))
  {
    hide WriteAll, Written, Restores, FailsAt, SetReg;
    match sys(s.regs, s.mem)
    case SysStop =>
    case SysReturn(_, writes) =>
      WriteAllStops(s, writes);
      forall k: nat | FailsAt(s.mem, writes, k)
        ensures FailsInRange(s.mem, writes, k) && (Written(s.mem, writes, k) == s.mem <==> Restores(s.mem, writes, k))
      {
        FailsFacts(s.mem, writes, k);
        RestoresExactly(s.mem, writes, k);
      }
  }

  predicate FailsInRange(mem: seq<Byte>, writes: seq<(Word, Byte)>, k: nat) {
    k < |writes| && forall j :: 0 <= j < k ==> writes[j].0 + 1 < |mem|
  }

  lemma FailsFacts(mem: seq<Byte>, writes: seq<(Word, Byte)>, k: nat)
    requires FailsAt(mem, writes, k)
    ensures FailsInRange(mem, writes, k)
  {
  }

  /** A call goes on exactly when the host answers and every write is in memory. Then a0 holds the answer, each
      byte is what the last write for it wrote, or as before, and nothing else changes. */
  lemma CallRunsExactly(sys: Sys, s: GState)
    ensures var o, e := SysCall(sys, s), sys(s.regs, s.mem);
            && (o.Running? <==> e.SysReturn? && forall j :: 0 <= j < |e.writes| ==> e.writes[j].0 + 1 < |s.mem|)
            && (o.Running? ==> o.s == s.(regs := s.regs[10 := e.a0], mem := o.s.mem) && |o.s.mem| == |s.mem|)
            && (o.Running? ==> forall j :: 0 <= j < |e.writes| && LastFor(e.writes, |e.writes|, j) ==>
                                 o.s.mem[e.writes[j].0] == e.writes[j].1)
            && (o.Running? ==> forall a :: 0 <= a < |s.mem| && (forall j :: 0 <= j < |e.writes| ==> e.writes[j].0 != a) ==>
                                 o.s.mem[a] == s.mem[a])
  {
    hide WriteAll, Written;
    match sys(s.regs, s.mem)
    case SysStop =>
    case SysReturn(a0, writes) =>
      var k := FirstFailure(s.mem, writes, |writes|);
      if k == |writes| {
        WriteAllPrefix(s, writes, k);
        NothingToWrite(s.(mem := Written(s.mem, writes, k)));
        assert writes[k..] == [];
        assert WriteAll(s, writes) == Running(s.(mem := Written(s.mem, writes, k)));
        AllWritten(s.mem, writes);
      } else {
        WriteAllStops(s, writes);
      }
  }

  lemma AllWritten(mem: seq<Byte>, writes: seq<(Word, Byte)>)
    requires forall j :: 0 <= j < |writes| ==> writes[j].0 + 1 < |mem|
    ensures var n := |writes|;
            && (forall j :: 0 <= j < n && LastFor(writes, n, j) ==> Written(mem, writes, n)[writes[j].0] == writes[j].1)
            && forall a :: 0 <= a < |mem| && (forall j :: 0 <= j < n ==> writes[j].0 != a) ==> Written(mem, writes, n)[a] == mem[a]
  {
    hide Written;
    var n := |writes|;
    forall j | 0 <= j < n && LastFor(writes, n, j)
      ensures Written(mem, writes, n)[writes[j].0] == writes[j].1
    {
      var l := WrittenAt(mem, writes, n, writes[j].0);
      assert l == j;
    }
    forall a | 0 <= a < |mem| && forall j :: 0 <= j < n ==> writes[j].0 != a
      ensures Written(mem, writes, n)[a] == mem[a]
    {
      var l := WrittenAt(mem, writes, n, a);
    }
  }

  // ----- one step -----

  /** The word at pc cannot be fetched, or its instruction is a load or store out of memory, a CSRRW to another
      register than the mode register or with the mode bit, or a call that stops. */
  predicate StopsHere(sys: Sys, s: GState) {
    match Fetch(s.mem, s.pc)
    case None => true
    case Some(i) =>
      match OpcodeOf(i.cmd)
      case OpLoad | OpStore => OutOfMemory(s.mem, Add(s.regs[i.rs1], i.imm), AccessSize(i.cmd))
      case OpSystem =>
        if i.cmd == ECALL then CallStops(s.mem, sys(s.regs, s.mem))
        else i.cmd == CSRRW && (Signed(i.imm) != 0x180 || s.regs[i.rs1] >= HALF)
      case _ => false
  }

  /** The reference machine stops in s with the registers and memory of s exactly under these guards. */
  lemma StopsHereExactly(sys: Sys, s: GState)
    ensures var o := ArchStep(sys, s);
            o.Stopped? && o.s.regs == s.regs && o.s.mem == s.mem <==> StopsHere(sys, s)
  {
    hide Fetch, CallStops, SysCall, LoadBytes, StoreBytes, Extend, SetReg, ImmResult, RegResult, BranchTaken, Count, Advance;
    CallStopsExactly(sys, s);
  }
}
