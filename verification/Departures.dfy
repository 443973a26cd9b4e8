/** Programs for which the simulator and the reference machine part: a word that does not decode after one that
    does, and a store into a cached trace. */
module Departures {
  import opened Words
  import opened Isa
  import opened Guest
  import opened Options
  import opened Arch
  import opened SimRun
  import Decoding

  /** Registers that hold x in x1 and zero elsewhere. */
  function OnlyX1(x: Word): seq<Word> {
    seq(32, i => if i == 1 then x else 0)
  }

  const PLAIN := Settings(1, false, 0)

  // ----- a word that does not decode -----

  const ADD_ONE := Inst(ADDI, 1, 0, 0, 1)

  /** addi x1, x0, 1 followed by a word that does not decode. */
  const UNBUILT := StateRep(OnlyX1(0), 0, [0x93, 0x00, 0x10, 0x00, 0, 0, 0, 0, 0], 0)

  lemma UnbuiltFetches()
    ensures Fetch(UNBUILT.mem, 0) == Some(ADD_ONE) && Fetch(UNBUILT.mem, 4) == None && |UNBUILT.mem| == 9
  {
    hide Decoding.DecodeFields, Decoding.RowOf, Decoding.CodeOf;
    assert LoadBytes(UNBUILT.mem, 0, 4) == 0x0010_0093 && LoadBytes(UNBUILT.mem, 4, 4) == 0;
    AddOneWord();
    Decoding.DecodeEncode(ADD_ONE);
  }

  lemma AddOneWord()
    ensures Decoding.IsEncodable(ADD_ONE) && Decoding.Encode(ADD_ONE) == 0x0010_0093
  {
    assert Decoding.EncodeFields(ADD_ONE) == Decoding.Fields(3, 4, 1, 0, 0, 1, 0);
  }

  lemma UnbuiltSteps(sys: Sys, s: GState)
    requires s == UNBUILT
    ensures Build(s.mem, s.pc) == None
    ensures ArchRun(sys, s, 0) == Running(s) && ArchStep(sys, s).Running? && ArchRun(sys, s, 1) == ArchStep(sys, s)
    ensures var t := ArchStep(sys, s).s; t.regs[1] == 1 && s.regs[1] == 0 && ArchStep(sys, t) == Stopped(t)
    ensures ArchRun(sys, s, 2) == ArchStep(sys, ArchStep(sys, s).s)
  {
    hide Decoding.Decode, LoadBytes, Fetch;
    UnbuiltFetches();
    assert Signed(1) == 1 && Add(0, 1) == 1 && Add(0, 4) == 4;
  }

  /** The simulator throws with x1 = 0, the reference machine never stops with these registers. */
  lemma UnbuiltDiffers(sys: Sys, s: GState)
    requires s == UNBUILT
    ensures IsRun(sys, PLAIN, [Config(s, [])]) && Refer(1, [], s.mem, s.pc) == None && ThrowsAt(sys, PLAIN, Config(s, []), s)
    ensures forall k: nat :: !StopsAfter(sys, s, k, s)
  {
    hide Build, ArchStep, ArchRun, RunTrace;
    UnbuiltSteps(sys, s);
    assert |s.mem| == 9;
    forall k: nat
      ensures !StopsAfter(sys, s, k, s)
    {
      if k >= 2 {
        StaysStopped(sys, s, 2, k);
      }
    }
  }

  // ----- a store into a cached trace -----

  const STORE := Inst(SW, 0, 0, 1, 0)
  const BACK := Inst(JAL, 0, 0, 0, 0xFFFF_FFFE)
  const SET_X3 := Inst(ADDI, 3, 0, 0, 1)

  /** sw x1, 0(x0) and jal x0, -4, and the word of addi x3, x0, 1 in x1. */
  const BEFORE: seq<Byte> := [0x23, 0x20, 0x10, 0x00, 0x6F, 0xF0, 0xDF, 0xFF, 0]
  const AFTER: seq<Byte> := [0x93, 0x01, 0x10, 0x00, 0x6F, 0xF0, 0xDF, 0xFF, 0]

  const STORING: seq<Inst> := [STORE, BACK]

  /** The simulator's state after n passes of the two instructions. */
  function Looped(n: nat): GState
    requires n <= 2
  {
    StateRep(OnlyX1(0x0010_0193), 0, if n == 0 then BEFORE else AFTER, 2 * n)
  }

  /** The configuration at the loop head then. */
  function LoopedConfig(n: nat): Config
    requires n <= 2
  {
    Config(Looped(n), if n == 0 then [] else [Cached(0, TraceState(STORING, false, 0, true))])
  }

  lemma StoreWords()
    ensures Decoding.IsEncodable(STORE) && Decoding.Encode(STORE) == 0x0010_2023
    ensures Decoding.IsEncodable(BACK) && Decoding.Encode(BACK) == 0xFFDF_F06F
    ensures Decoding.IsEncodable(SET_X3) && Decoding.Encode(SET_X3) == 0x0010_0193
  {
    assert Decoding.EncodeFields(STORE) == Decoding.Fields(3, 8, 0, 2, 0, 1, 0);
    assert Decoding.EncodeFields(SET_X3) == Decoding.Fields(3, 4, 3, 0, 0, 1, 0);
    BackWord();
  }

  lemma BackWord()
    ensures Decoding.IsEncodable(BACK) && Decoding.Encode(BACK) == 0xFFDF_F06F
  {
    hide Decoding.JumpBits, Decoding.UpperFields;
    BackBits();
    assert Wrap(2 * 0xFFFF_FFFE) == 0xFFFF_FFFC;
    assert Decoding.EncodeFields(BACK) == Decoding.UpperFields(27, 0, 0xF_FDFF);
  }

  lemma BackBits()
    ensures Decoding.JumpBits(0xFFFF_FFFC) == 0xF_FDFF
    ensures Decoding.UpperFields(27, 0, 0xF_FDFF) == Decoding.Fields(3, 27, 0, 7, 31, 29, 127)
  {
    var off := 0xFFFF_FFFC;
    assert off / 0x10_0000 == 0xFFF && off / 2 == 0x7FFF_FFFE && off / 0x800 == 0x1F_FFFF && off / 0x1000 == 0xF_FFFF;
    assert 0xFFF % 2 == 1 && 0x7FFF_FFFE % 1024 == 0x3FE && 0x1F_FFFF % 2 == 1 && 0xF_FFFF % 256 == 0xFF;
    var x := 0xF_FDFF;
    assert x % 8 == 7 && x / 8 == 0x1_FFBF && x / 256 == 0xFFD && x / 8192 == 0x7F;
    assert 0x1_FFBF % 32 == 31 && 0xFFD % 32 == 29;
  }

  lemma StoreFetches()
    ensures Fetch(BEFORE, 0) == Some(STORE) && Fetch(BEFORE, 4) == Some(BACK)
    ensures Fetch(AFTER, 0) == Some(SET_X3) && Fetch(AFTER, 4) == Some(BACK)
  {
    hide Decoding.Decode, Decoding.Encode, Decoding.IsEncodable;
    assert LoadBytes(BEFORE, 0, 4) == 0x0010_2023 && LoadBytes(BEFORE, 4, 4) == 0xFFDF_F06F;
    assert LoadBytes(AFTER, 0, 4) == 0x0010_0193 && LoadBytes(AFTER, 4, 4) == 0xFFDF_F06F;
    StoreWords();
    Decoding.DecodeEncode(STORE);
    Decoding.DecodeEncode(BACK);
    Decoding.DecodeEncode(SET_X3);
  }

  lemma StoringIsBuilt()
    ensures IsTrace(STORING) && Build(BEFORE, 0) == Some(STORING)
  {
    hide Fetch;
    StoreFetches();
    assert [STORE] + [BACK] == STORING;
  }

  lemma Overwrites(mem: seq<Byte>)
    requires mem == BEFORE || mem == AFTER
    ensures |mem| == 9 && StoreBytes(mem, 0, 4, 0x0010_0193) == AFTER
  {
  }

  /** The trace stores the new instruction over its first word and goes back, whatever is there. */
  lemma StoringSteps(sys: Sys, s: GState, off: nat)
    requires s.regs == OnlyX1(0x0010_0193) && (s.mem == BEFORE || s.mem == AFTER) && s.pc + off <= 4
    ensures Step(sys, STORE, off, s) == Running(s.(mem := AFTER))
    ensures s.pc + off == 4 ==> Step(sys, BACK, off, s) == Running(s.(pc := 0))
  {
    hide StoreBytes, Step;
    Overwrites(s.mem);
    StoreSteps(sys, s, off);
    if s.pc + off == 4 {
      BackSteps(sys, s, off);
    }
  }

  lemma StoreSteps(sys: Sys, s: GState, off: nat)
    requires s.regs[0] == 0 && |s.mem| == 9
    ensures Step(sys, STORE, off, s) == Running(s.(mem := StoreBytes(s.mem, 0, 4, s.regs[1])))
  {
    hide StoreBytes, LoadBytes, Extend, SetReg, ImmResult, RegResult, BranchTaken, SysCall, And, Wrap;
    AddZeros();
  }

  lemma AddZeros()
    ensures Add(0, 0) == 0
  {
  }

  lemma BackSteps(sys: Sys, s: GState, off: nat)
    requires s.pc + off == 4
    ensures Step(sys, BACK, off, s) == Running(s.(pc := 0))
  {
    hide StoreBytes, LoadBytes, Extend, ImmResult, RegResult, BranchTaken, SysCall, And;
    assert Signed(0xFFFF_FFFE) == -2;
    assert Add(s.pc, Wrap(off)) == 4;
  }

  lemma PassStores(sys: Sys, n: nat)
    requires n <= 1
    ensures RunTrace(sys, STORING, Looped(n)) == Running(Looped(n + 1))
  {
    hide Step, OnlyX1;
    var s := Looped(n);
    StoringSteps(sys, s, 0);
    StoringSteps(sys, s.(mem := AFTER), 4);
    assert RunFrom(sys, STORING, 1, s.(mem := AFTER)) == Running(s.(mem := AFTER));
  }

  /** The simulator goes round twice: the second time it executes the trace it has cached. */
  lemma LoopedRound(sys: Sys, n: nat)
    requires n <= 1
    ensures IsRound(sys, PLAIN, LoopedConfig(n), LoopedConfig(n + 1))
  {
    hide Build, RunTrace, OnlyX1, Refer, Find, IsRound, IsTrace;
    StoringIsBuilt();
    PassStores(sys, n);
    LoopedRefer(n);
    InterpretedRound(sys, LoopedConfig(n), LoopedConfig(n + 1), Cached(0, TraceState(STORING, false, 0, true)));
  }

  /** A round that interprets the one trace in the cache. */
  lemma InterpretedRound(sys: Sys, c: Config, d: Config, x: Cached)
    requires |c.s.mem| <= 0x1_0000_0000 && Refer(1, c.cache, c.s.mem, c.s.pc) == Some([x]) && x.pc == c.s.pc
    requires !x.trace.native && IsTrace(x.trace.insts) && x.trace.insts[|x.trace.insts| - 1].cmd != FENCE
    requires RunTrace(sys, x.trace.insts, c.s) == Running(d.s) && d.cache == [x]
    ensures IsRound(sys, PLAIN, c, d)
  {
    hide Refer, RunTrace, IsTrace;
    assert [x][0 := Cached(x.pc, x.trace)] == [x];
  }

  lemma LoopedRefer(n: nat)
    requires n <= 1
    ensures var c := LoopedConfig(n);
            |c.s.mem| == 9 && Refer(1, c.cache, c.s.mem, 0) == Some([Cached(0, TraceState(STORING, false, 0, true))])
  {
    hide Build, OnlyX1;
    StoringIsBuilt();
    var kept := [Cached(0, TraceState(STORING, false, 0, true))];
    if n == 0 {
      var none: seq<Cached> := [];
      assert Find(none, 0) == None;
      assert kept + none == kept;
    } else {
      assert Find(kept, 0) == Some(0);
      assert [kept[0]] + kept[..0] + kept[1..] == kept;
    }
  }

  predicate HasX3(s: GState) {
    s.mem == AFTER && s.regs[3] == 1 && (s.pc == 0 || s.pc == 4)
  }

  lemma KeepsX3(sys: Sys, s: GState)
    requires s.mem == AFTER && (HasX3(s) || s.pc == 0)
    ensures ArchStep(sys, s).Running? && HasX3(ArchStep(sys, s).s)
  {
    hide Fetch;
    StoreFetches();
    assert Signed(0xFFFF_FFFE) == -2 && Add(0, 1) == 1;
  }

  /** The reference machine executes the new instruction from its third step on. */
  lemma {:induction false} SetsX3(sys: Sys, n: nat)
    requires n >= 3
    ensures var o := ArchRun(sys, Looped(0), n); o.Running? && HasX3(o.s)
    decreases n
  {
    hide ArchStep, HasX3;
    FirstSteps(sys);
    if n == 3 {
      KeepsX3(sys, ArchRun(sys, Looped(0), 2).s);
    } else {
      SetsX3(sys, n - 1);
      X3Facts(ArchRun(sys, Looped(0), n - 1).s);
      KeepsX3(sys, ArchRun(sys, Looped(0), n - 1).s);
    }
  }

  lemma X3Facts(s: GState)
    requires HasX3(s)
    ensures s.mem == AFTER && s.regs[3] == 1
  {
  }

  lemma FirstSteps(sys: Sys)
    ensures ArchRun(sys, Looped(0), 0) == Running(Looped(0))
    ensures ArchRun(sys, Looped(0), 1).Running? && ArchRun(sys, Looped(0), 1).s.executed == 1
    ensures ArchRun(sys, Looped(0), 2) == Running(Looped(1))
  {
    hide ArchRun, ArchStep, OnlyX1;
    ArchStart(sys, Looped(0));
    ArchNext(sys, Looped(0), 0);
    ArchNext(sys, Looped(0), 1);
    StoreArchStep(sys);
    BackArchStep(sys);
  }

  /** Between the two instructions of the first pass. */
  function Halfway(): GState {
    Looped(0).(mem := AFTER, pc := 4, executed := 1)
  }

  lemma StoreArchStep(sys: Sys)
    ensures ArchStep(sys, Looped(0)) == Running(Halfway())
  {
    hide Fetch, Step, OnlyX1;
    StoreFetches();
    StoringSteps(sys, Looped(0), 0);
    assert Add(0, 4) == 4;
  }

  lemma BackArchStep(sys: Sys)
    ensures ArchStep(sys, Halfway()) == Running(Looped(1))
  {
    hide Fetch, Step, OnlyX1;
    StoreFetches();
    StoringSteps(sys, Halfway(), 0);
  }

  /** The simulator gets to its third loop head by two rounds; the reference machine is never in that state. */
  lemma StoreDiffers(sys: Sys)
    ensures IsRounds(sys, PLAIN, [LoopedConfig(0), LoopedConfig(1), LoopedConfig(2)])
    ensures forall n: nat :: ArchRun(sys, Looped(0), n) != Running(Looped(2))
  {
    hide IsRound, ArchRun;
    LoopedRound(sys, 0);
    LoopedRound(sys, 1);
    FirstSteps(sys);
    forall n: nat
      ensures ArchRun(sys, Looped(0), n) != Running(Looped(2))
    {
      if n >= 3 {
        SetsX3(sys, n);
      }
    }
  }
}
