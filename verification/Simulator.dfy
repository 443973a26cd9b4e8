/** The simulator's main loop as the source writes it: cached traces, the translation attempt, the
    interpreter or native code, round after round. */
module Simulator {
  import opened Words
  import opened Isa
  import opened Guest
  import opened Options
  import opened Host
  import opened Arch
  import opened Compiler
  import opened JitCorrect
  import opened SimRun
  import opened Interpreter
  import opened Caches
  import opened Crowding
  import DecoderTables
  import TemplateCorrect
  import Jit = Translator
  import Decoding
  import Lru

  /** A cached trace with its native code. */
  datatype Trace = Trace(insts: seq<Inst>, execTrace: Option<seq<Instr>>, execNum: nat, isEligible: bool) {
    ghost predicate Valid() {
      IsTrace(insts) && (execTrace.Some? ==> Supported(insts) && execTrace.value == Compile(insts))
    }

    ghost function View(): TraceState {
      TraceState(insts, execTrace.Some?, execNum, isEligible)
    }
  }

  /** How executing a trace ends: normally, with an exception, or not within the allowed native steps. */
  datatype Ending = Finished | Thrown | StillRunning

  /** `Trace::Trace`: decodes from pc up to a terminator. */
  method BuildTrace(decoder: DecoderTables.Decoder, state: State) returns (r: Option<seq<Inst>>)
    requires decoder.Valid() && state.Valid() && state.mem.Length <= 0x1_0000_0000
    ensures r == Build(state.mem[..], state.pc)
  {
    hide Build, Decoding.Decode, LoadBytes, Prefixed, DecoderTables.Decoder.Valid;
    var trace: seq<Inst> := [];
    var address := state.pc;
    ghost var mem := state.mem[..];
    PrefixedStart(Build(mem, address));
    while true
      invariant Build(mem, state.pc) == Prefixed(trace, Build(mem, address))
      decreases state.mem.Length - address
    {
      var ok, command := state.Load(address, 4);
      BuildUnfolds(mem, address);
      ghost var front := trace;
      PrefixedEnds(front);
      if !ok {
        return None;
      }
      var inst := decoder.Decode(command);
      if inst == None {
        return None;
      }
      trace := trace + [inst.value];
      if inst.value.IsTerminator() {
        return Some(trace);
      }
      PrefixedStep(front, inst.value, Build(mem, address + 4));
      address := address + 4;
    }
  }

  function Prefixed(front: seq<Inst>, rest: Option<seq<Inst>>): Option<seq<Inst>> {
    match rest
    case None => None
    case Some(t) => Some(front + t)
  }

  lemma PrefixedStart(rest: Option<seq<Inst>>)
    ensures Prefixed([], rest) == rest
  {
    if rest.Some? {
      assert [] + rest.value == rest.value;
    }
  }

  lemma PrefixedEnds(front: seq<Inst>)
    ensures Prefixed(front, None) == None && forall i :: Prefixed(front, Some([i])) == Some(front + [i])
  {
  }

  lemma PrefixedStep(front: seq<Inst>, i: Inst, rest: Option<seq<Inst>>)
    ensures Prefixed(front, Prefixed([i], rest)) == Prefixed(front + [i], rest)
  {
    if rest.Some? {
      assert front + ([i] + rest.value) == (front + [i]) + rest.value;
    }
  }

  lemma BuildUnfolds(mem: seq<Byte>, a: Word)
    requires |mem| <= 0x1_0000_0000
    ensures OutOfMemory(mem, a, 4) ==> Build(mem, a) == None
    ensures !OutOfMemory(mem, a, 4) ==>
              a + 4 < |mem| &&
              match Decoding.Decode(LoadBytes(mem, a, 4))
              case None => Build(mem, a) == None
              case Some(i) => Build(mem, a) == if i.IsTerminator() then Some([i]) else Prefixed([i], Build(mem, a + 4))
  {
  }

  /** Runs native code for at most so many steps. */
  method RunNative(code: seq<Instr>, m: Machine, fuel: nat) returns (r: Machine, returned: bool)
    ensures |r.g.mem| == |m.g.mem|
    ensures returned <==> Steps(code, At(0, m), fuel).Returned?
    ensures returned ==> r == Steps(code, At(0, m), fuel).m
  {
    hide Host.Next;
    var c := At(0, m);
    var k := 0;
    while k < fuel && c.At?
      invariant 0 <= k <= fuel && Steps(code, At(0, m), k) == c && (!c.Lost? ==> |c.m.g.mem| == |m.g.mem|)
    {
      StepsNext(code, At(0, m), k);
      NextSize(code, c);
      c := Next(code, c);
      k := k + 1;
    }
    if !c.At? {
      StepsAdd(code, At(0, m), k, fuel - k);
      EndStays(code, c, fuel - k);
    }
    returned := c.Returned?;
    r := if returned then c.m else m;
  }

  /** A machine that has returned or is lost stays so. */
  lemma {:induction false} EndStays(code: seq<Instr>, c: Control, n: nat)
    requires !c.At?
    ensures Steps(code, c, n) == c
    decreases n
  {
    if n > 0 {
      EndStays(code, c, n - 1);
    }
  }

  lemma NextSize(code: seq<Instr>, c: Control)
    requires c.At?
    ensures Next(code, c).Lost? || |Next(code, c).m.g.mem| == |c.m.g.mem|
  {
  }

  lemma {:induction false} StepsNext(code: seq<Instr>, c: Control, k: nat)
    ensures Steps(code, c, k + 1) == Next(code, Steps(code, c, k))
    decreases k
  {
    hide Host.Next;
    if k > 0 {
      StepsNext(code, Next(code, c), k - 1);
    }
  }

  /** The attempt to translate at the start of `Trace::execute`. */
  method Translate(jit: bool, threshold: nat, t: Trace) returns (r: Trace)
    requires t.Valid()
    ensures r.Valid() && forall size :: r.View() == Attempt(Settings(size, jit, threshold), t.View())
  {
    hide Compile, Supported;
    r := t;
    if jit && t.isEligible && t.execTrace == None {
      r := t.(execNum := t.execNum + 1);
      if threshold == t.execNum {
        var tr := new Jit.Translator();
        tr.CompileTrace(t.insts);
        r := if tr.func == None then r.(isEligible := false) else r.(execTrace := tr.func);
      }
    }
  }

  /** `Trace::execute` after the attempt: native code if there is some, else the interpreter. The host
      registers, flags and buffer address of `host` are arbitrary. */
  method ExecuteTrace(sys: Sys, t: Trace, state: State, host: Machine, fuel: nat) returns (e: Ending)
    requires t.Valid() && state.Valid() && host.ok && host.base + state.mem.Length <= TWO64
    modifies state, state.regs, state.mem
    ensures state.Valid() && (e == Finished ==> Executes(sys, t.View(), old(state.View()), state.View()))
    ensures e == Thrown ==> t.execTrace == None && RunTrace(sys, t.insts, old(state.View())) == Stopped(state.View())
    ensures e == StillRunning ==>
              t.execTrace.Some? && !Steps(t.execTrace.value, At(0, host.(g := old(state.View()))), fuel).Returned?
  {
    hide Compile, Supported, RunTrace, Steps;
    if t.execTrace == None {
      var ok := state.Interpret(sys, t.insts);
      return if ok then Finished else Thrown;
    }
    ghost var s := state.View();
    var g := state.Read();
    var m := host.(g := g);
    var r, returned := RunNative(t.execTrace.value, m, fuel);
    if !returned {
      return StillRunning;
    }
    state.Install(r.g);
    assert NativeReturns(t.insts, m, state.View());
    assert TemplateCorrect.Fits(m);
    return Finished;
  }

  // ----- the trace cache as a value -----

  ghost function Traces(cells: seq<Cell<Word, Trace>>): (r: seq<Cached>)
    reads cells
    ensures |r| == |cells| && forall i :: 0 <= i < |r| ==> r[i] == Cached(cells[i].key, cells[i].val.View())
  {
    seq(|cells|, i requires 0 <= i < |cells| reads cells => Cached(cells[i].key, cells[i].val.View()))
  }

  ghost predicate AllValid(cells: seq<Cell<Word, Trace>>)
    reads cells
  {
    forall i :: 0 <= i < |cells| ==> cells[i].val.Valid()
  }

  /** The pure cache finds the cell that holds the key. */
  lemma FindCell(cells: seq<Cell<Word, Trace>>, c: Cell<Word, Trace>, i: nat)
    requires Lru.Distinct(KeysOf(cells)) && i < |cells| && cells[i] == c
    ensures Find(Traces(cells), c.key) == Some(i)
    ensures Lru.Without(cells, c) == cells[..i] + cells[i + 1..]
  {
    FindIndex(Traces(cells), KeysOf(cells), i);
    WithoutCell(cells, i);
  }

  lemma {:induction false} FindIndex(cache: seq<Cached>, keys: seq<Word>, i: nat)
    requires |cache| == |keys| && Lru.Distinct(keys) && i < |keys| && forall j :: 0 <= j < |keys| ==> cache[j].pc == keys[j]
    ensures Find(cache, keys[i]) == Some(i)
  {
  }

  lemma WithoutCell(cells: seq<Cell<Word, Trace>>, i: nat)
    requires Lru.Distinct(KeysOf(cells)) && i < |cells|
    ensures Lru.Without(cells, cells[i]) == cells[..i] + cells[i + 1..]
  {
    hide Lru.Without;
    forall j, k | 0 <= j < k < |cells|
      ensures cells[j] != cells[k]
    {
      assert KeysOf(cells)[j] != KeysOf(cells)[k];
    }
    Lru.WithoutIndex(cells, i);
  }

  lemma FindMissing(cells: seq<Cell<Word, Trace>>, pc: Word)
    requires pc !in KeysOf(cells)
    ensures Find(Traces(cells), pc) == None
  {
    var cache := Traces(cells);
    forall i | 0 <= i < |cells|
      ensures cache[i].pc != pc
    {
      assert KeysOf(cells)[i] == cells[i].key;
    }
  }

  lemma MovedTraces(cells: seq<Cell<Word, Trace>>, now: seq<Cell<Word, Trace>>, i: nat)
    requires i < |cells| && now == [cells[i]] + (cells[..i] + cells[i + 1..])
    ensures var cache := Traces(cells); Traces(now) == [cache[i]] + cache[..i] + cache[i + 1..]
    ensures AllValid(cells) ==> AllValid(now)
  {
    hide Traces, Trace.Valid, Trace.View;
    var cache := Traces(cells);
    var moved := [cache[i]] + cache[..i] + cache[i + 1..];
    forall j | 0 <= j < |now|
      ensures Traces(now)[j] == moved[j]
    {
      assert now[j] == if j == 0 then cells[i] else if j <= i then cells[j - 1] else cells[j];
    }
  }

  lemma ReferFound(size: nat, cache: seq<Cached>, mem: seq<Byte>, pc: Word, i: nat)
    requires size >= 1 && |mem| <= 0x1_0000_0000 && Find(cache, pc) == Some(i)
    ensures i < |cache| && Refer(size, cache, mem, pc) == Some([cache[i]] + cache[..i] + cache[i + 1..])
  {
  }

  /** What `refer` makes of the cache; None for the exception. */
  ghost predicate ReferIs(size: nat, cache: seq<Cached>, mem: seq<Byte>, pc: Word, r: Option<seq<Cached>>) {
    size >= 1 && |mem| <= 0x1_0000_0000 && Refer(size, cache, mem, pc) == r
  }

  lemma ReferIsOne(size: nat, cache: seq<Cached>, mem: seq<Byte>, pc: Word, r: Option<seq<Cached>>)
    requires ReferIs(size, cache, mem, pc, r) && r.Some?
    ensures !ReferIs(size, cache, mem, pc, None)
  {
    hide Refer;
  }

  /** A hit of `refer` on the cells is one on the cache as a value. */
  lemma HitIsRefer(cells: seq<Cell<Word, Trace>>, c: Cell<Word, Trace>, now: seq<Cell<Word, Trace>>, size: nat, mem: seq<Byte>)
    requires size >= 1 && |mem| <= 0x1_0000_0000 && Lru.Distinct(KeysOf(cells)) && c in cells
    requires now == [c] + Lru.Without(cells, c)
    ensures ReferIs(size, Traces(cells), mem, c.key, Some(Traces(now)))
    ensures AllValid(cells) ==> AllValid(now)
  {
    hide KeysOf, Find, Build, Refer, Traces, AllValid, Lru.Without, Lru.Distinct;
    var i :| 0 <= i < |cells| && cells[i] == c;
    FindCell(cells, c, i);
    ReferFound(size, Traces(cells), mem, c.key, i);
    MovedTraces(cells, now, i);
  }

  /** So is a miss. */
  lemma MissIsRefer(cells: seq<Cell<Word, Trace>>, c: Cell<Word, Trace>, now: seq<Cell<Word, Trace>>, size: nat, mem: seq<Byte>)
    requires size >= 1 && |mem| <= 0x1_0000_0000 && c.key !in KeysOf(cells) && Build(mem, c.key) == Some(c.val.insts)
    requires c.val == Trace(c.val.insts, None, 0, true)
    requires now == [c] + if |cells| < size then cells else cells[..|cells| - 1]
    ensures ReferIs(size, Traces(cells), mem, c.key, Some(Traces(now)))
    ensures AllValid(cells) ==> AllValid(now)
  {
    hide KeysOf, Find, Build, Refer, Traces, AllValid, IsTrace;
    FindMissing(cells, c.key);
    ReferMiss(size, Traces(cells), mem, c.key, c.val.insts);
    NewTraces(cells, c, now, size);
  }

  lemma ReferMiss(size: nat, cache: seq<Cached>, mem: seq<Byte>, pc: Word, insts: seq<Inst>)
    requires size >= 1 && |mem| <= 0x1_0000_0000 && Find(cache, pc) == None && Build(mem, pc) == Some(insts)
    ensures IsTrace(insts)
    ensures Refer(size, cache, mem, pc) ==
            Some([Cached(pc, TraceState(insts, false, 0, true))] + if |cache| < size then cache else cache[..|cache| - 1])
  {
    hide Find, Build;
    BuildIsTrace(mem, pc);
  }

  lemma NewTraces(cells: seq<Cell<Word, Trace>>, c: Cell<Word, Trace>, now: seq<Cell<Word, Trace>>, size: nat)
    requires size >= 1 && c.val == Trace(c.val.insts, None, 0, true)
    requires now == [c] + if |cells| < size then cells else cells[..|cells| - 1]
    ensures var cache := Traces(cells);
            Traces(now) == [Cached(c.key, TraceState(c.val.insts, false, 0, true))]
                           + if |cache| < size then cache else cache[..|cache| - 1]
    ensures AllValid(cells) && IsTrace(c.val.insts) ==> AllValid(now)
  {
  }

  lemma BuildIsTrace(mem: seq<Byte>, a: Word)
    requires |mem| <= 0x1_0000_0000
    ensures Build(mem, a).Some? ==> IsTrace(Build(mem, a).value)
  {
  }

  /** A trace that does not decode is not built. */
  lemma ReferUnbuilt(size: nat, cells: seq<Cell<Word, Trace>>, mem: seq<Byte>, pc: Word)
    requires size >= 1 && |mem| <= 0x1_0000_0000 && pc !in KeysOf(cells) && Build(mem, pc) == None
    ensures ReferIs(size, Traces(cells), mem, pc, None)
  {
    hide Build, Find, KeysOf;
    FindMissing(cells, pc);
  }

  /** `TraceCache::refer`: the cell of the trace at pc, which is built on a miss. */
  method ReferTrace(cache: LRUCache<Word, Trace>, decoder: DecoderTables.Decoder, state: State)
    returns (cell: Cell<Word, Trace>, ok: bool)
    requires cache.Valid() && decoder.Valid() && state.Valid() && state.mem.Length <= 0x1_0000_0000
    requires AllValid(cache.entries) && state.mem != cache.links.mInfo
    modifies cache, cache.links, cache.links.mInfo, cache.links.mKeyVals
    ensures forall c :: c in cache.entries ==> c in old(cache.entries) || fresh(c)
    ensures cache.links.mInfo == old(cache.links.mInfo) || fresh(cache.links.mInfo)
    ensures cache.links.mKeyVals == old(cache.links.mKeyVals) || fresh(cache.links.mKeyVals)
    ensures ok ==> cache.Valid() && AllValid(cache.entries) && cache.entries != [] && cell == cache.entries[0]
    ensures ok ==>
              ReferIs(cache.maxSize, old(Traces(cache.entries)), state.mem[..], state.pc, Some(Traces(cache.entries)))
    ensures ok <==> !old(cache.WillGiveUp(state.pc)) &&
                    !ReferIs(cache.maxSize, old(Traces(cache.entries)), state.mem[..], state.pc, None)
    ensures ok ==> cache.history == old(cache.history) + [state.pc]
  {
    hide *;
    var present := cache.Contains(state.pc);
    if present {
      PresentGoesOn(cache, state.pc);
      ghost var before := Traces(cache.entries);
      cell := ReferHit(cache, state.pc, state.mem[..]);
      ok := true;
      ReferIsOne(cache.maxSize, before, state.mem[..], state.pc, Some(Traces(cache.entries)));
    } else {
      var built := BuildTrace(decoder, state);
      if built == None {
        CacheFacts(cache);
        ReferUnbuilt(cache.maxSize, cache.entries, state.mem[..], state.pc);
        cell := new Cell(state.pc, Trace([], None, 0, true));
        return cell, false;
      }
      ghost var before := Traces(cache.entries);
      cell, ok := ReferBuilt(cache, state.pc, built.value, state.mem[..]);
      if ok {
        ReferIsOne(cache.maxSize, before, state.mem[..], state.pc, Some(Traces(cache.entries)));
      }
    }
  }

  lemma PresentGoesOn(cache: LRUCache<Word, Trace>, pc: Word)
    requires pc in KeysOf(cache.entries)
    ensures !cache.WillGiveUp(pc)
  {
  }

  /** The hit: the cell moves to the front. */
  method ReferHit(cache: LRUCache<Word, Trace>, pc: Word, ghost mem: seq<Byte>) returns (cell: Cell<Word, Trace>)
    requires cache.Valid() && |mem| <= 0x1_0000_0000 && AllValid(cache.entries) && pc in KeysOf(cache.entries)
    modifies cache, cache.links, cache.links.mInfo, cache.links.mKeyVals
    ensures forall c :: c in cache.entries ==> c in old(cache.entries) || fresh(c)
    ensures cache.links.mInfo == old(cache.links.mInfo) || fresh(cache.links.mInfo)
    ensures cache.links.mKeyVals == old(cache.links.mKeyVals) || fresh(cache.links.mKeyVals)
    ensures cache.Valid() && AllValid(cache.entries) && cache.entries != [] && cell == cache.entries[0]
    ensures ReferIs(cache.maxSize, old(Traces(cache.entries)), mem, pc, Some(Traces(cache.entries)))
    ensures cache.history == old(cache.history) + [pc]
  {
    hide *;
    ghost var cells := cache.entries;
    ghost var before := Traces(cells);
    CacheFacts(cache);
    var isNew, ok;
    cell, isNew, ok := cache.Insert(pc, Trace([], None, 0, true));
    assert forall i :: 0 <= i < |cells| ==> cells[i].val == old(cells[i].val);
    assert Traces(cells) == before;
    HitIsRefer(cells, cell, cache.entries, cache.maxSize, mem);
  }

  /** The miss: a new cell in front. */
  method ReferBuilt(cache: LRUCache<Word, Trace>, pc: Word, insts: seq<Inst>, ghost mem: seq<Byte>)
    returns (cell: Cell<Word, Trace>, ok: bool)
    requires cache.Valid() && |mem| <= 0x1_0000_0000 && AllValid(cache.entries) && pc !in KeysOf(cache.entries)
    requires Build(mem, pc) == Some(insts)
    modifies cache, cache.links, cache.links.mInfo, cache.links.mKeyVals
    ensures forall c :: c in cache.entries ==> c in old(cache.entries) || fresh(c)
    ensures cache.links.mInfo == old(cache.links.mInfo) || fresh(cache.links.mInfo)
    ensures cache.links.mKeyVals == old(cache.links.mKeyVals) || fresh(cache.links.mKeyVals)
    ensures ok ==> cache.Valid() && AllValid(cache.entries) && cache.entries != [] && cell == cache.entries[0]
    ensures ok ==> ReferIs(cache.maxSize, old(Traces(cache.entries)), mem, pc, Some(Traces(cache.entries)))
    ensures ok <==> !old(cache.WillGiveUp(pc))
    ensures ok ==> cache.history == old(cache.history) + [pc]
  {
    hide *;
    ghost var cells := cache.entries;
    ghost var before := Traces(cells);
    CacheFacts(cache);
    var isNew;
    cell, isNew, ok := cache.Insert(pc, Trace(insts, None, 0, true));
    assert forall i :: 0 <= i < |cells| ==> cells[i].val == old(cells[i].val);
    assert Traces(cells) == before;
    MissIsRefer(cells, cell, cache.entries, cache.maxSize, mem);
  }

  lemma CacheFacts(cache: LRUCache<Word, Trace>)
    requires cache.Valid()
    ensures cache.maxSize >= 1 && Lru.Distinct(KeysOf(cache.entries))
  {
    hide KeysOf, Lru.CacheKeys, Lru.Distinct;
    Lru.CacheDistinct(cache.history, cache.maxSize);
  }

  /** The mutable part of the trace in front changes; the other cells are different cells. */
  method SetTrace(cache: LRUCache<Word, Trace>, t: Trace)
    requires cache.Valid() && AllValid(cache.entries) && cache.entries != [] && t.Valid()
    modifies cache.entries[0]
    ensures cache.Valid() && AllValid(cache.entries) && cache.entries[0].val == t
    ensures Traces(cache.entries) == old(Traces(cache.entries))[0 := Cached(cache.entries[0].key, t.View())]
  {
    hide LRUCache.Valid, Trace.Valid, Trace.View, Lru.Distinct;
    CacheFacts(cache);
    OtherCells(cache.entries);
    cache.entries[0].val := t;
  }

  lemma OtherCells(cells: seq<Cell<Word, Trace>>)
    requires Lru.Distinct(KeysOf(cells))
    ensures forall i :: 0 < i < |cells| ==> cells[i] != cells[0]
  {
    forall i | 0 < i < |cells|
      ensures cells[i] != cells[0]
    {
      assert KeysOf(cells)[i] != KeysOf(cells)[0];
    }
  }

  lemma FrontValid(cells: seq<Cell<Word, Trace>>)
    requires AllValid(cells) && cells != []
    ensures cells[0].val.Valid() && Traces(cells)[0].trace == cells[0].val.View()
  {
  }

  lemma ValidTrace(t: Trace)
    requires t.Valid()
    ensures IsTrace(t.View().insts) && t.View().insts == t.insts && (t.View().native <==> t.execTrace.Some?)
  {
  }

  lemma NoTraces()
    ensures Traces([]) == [] && AllValid([]) && CellSet([]) == {}
  {
  }

  lemma StateParts(state: State)
    requires state.Valid()
    ensures state.View().mem == state.mem[..] && state.View().pc == state.pc
  {
  }

  /** The start of a round: the trace at pc, after the attempt to translate it. */
  method PrepareTrace(cache: LRUCache<Word, Trace>, decoder: DecoderTables.Decoder, state: State, jit: bool, threshold: nat)
    returns (t: Trace, ghost r: seq<Cached>, ok: bool)
    requires cache.Valid() && decoder.Valid() && state.Valid() && state.mem.Length <= 0x1_0000_0000
    requires AllValid(cache.entries) && state.mem != cache.links.mInfo
    modifies cache, cache.links, cache.links.mInfo, cache.links.mKeyVals, cache.entries
    ensures forall c :: c in cache.entries ==> c in old(cache.entries) || fresh(c)
    ensures cache.links.mInfo == old(cache.links.mInfo) || fresh(cache.links.mInfo)
    ensures cache.links.mKeyVals == old(cache.links.mKeyVals) || fresh(cache.links.mKeyVals)
    ensures ok ==> cache.Valid() && AllValid(cache.entries) && t.Valid() && IsTrace(t.View().insts)
    ensures ok ==> ReferIs(cache.maxSize, old(Traces(cache.entries)), state.mem[..], state.pc, Some(r)) && r != []
    ensures ok ==> t.View() == Attempt(Settings(cache.maxSize, jit, threshold), r[0].trace)
    ensures ok ==> Traces(cache.entries) == r[0 := Cached(r[0].pc, t.View())]
    ensures ok <==> !old(cache.WillGiveUp(state.pc)) &&
                    !ReferIs(cache.maxSize, old(Traces(cache.entries)), state.mem[..], state.pc, None)
    ensures ok ==> cache.history == old(cache.history) + [state.pc]
  {
    hide *;
    var cell;
    cell, ok := ReferTrace(cache, decoder, state);
    r := Traces(cache.entries);
    if !ok {
      return Trace([], None, 0, true), r, false;
    }
    FrontValid(cache.entries);
    assert cache.entries[0] in cache.entries;
    t := Translate(jit, threshold, cell.val);
    SetTrace(cache, t);
    ValidTrace(t);
    return t, r, true;
  }

  /** FENCE empties the cache, here between two rounds. */
  method FlushAfter(cache: LRUCache<Word, Trace>, t: Trace)
    requires cache.Valid() && AllValid(cache.entries) && t.Valid()
    modifies cache, cache.links, cache.links.mInfo, cache.links.mKeyVals
    ensures cache.Valid() && AllValid(cache.entries)
    ensures cache.entries == if t.insts[|t.insts| - 1].cmd == FENCE then [] else old(cache.entries)
    ensures cache.links.mInfo == old(cache.links.mInfo) && cache.links.mKeyVals == old(cache.links.mKeyVals)
    ensures Traces(cache.entries) == Flushed(t.View(), old(Traces(cache.entries)))
    ensures cache.history == [] || cache.history == old(cache.history)
  {
    hide LRUCache.Valid;
    if t.insts[|t.insts| - 1].cmd == FENCE {
      cache.Clear();
    }
  }

  lemma PlainBetween(sys: Sys, o: Settings, c: Config, d: Config)
    requires RoundBetween(sys, o, c, d)
    ensures o.jit || !IsPlain(c.cache) || IsPlain(d.cache)
  {
    hide SimRun.Round, IsPlain;
    if !o.jit && IsPlain(c.cache) {
      PlainStays(sys, o, c, d);
    }
  }

  lemma PlainRuns(o: Settings, c: Config, host: Machine, fuel: nat)
    requires KeepsRunning(o, c, host, fuel)
    ensures o.jit || !IsPlain(c.cache)
  {
    hide KeepsRunning, IsPlain;
    if IsPlain(c.cache) {
      PlainReturns(o, c, host, fuel);
    }
  }

  ghost predicate RoundBetween(sys: Sys, o: Settings, c: Config, d: Config) {
    o.cacheSize >= 1 && |c.s.mem| <= 0x1_0000_0000 && SimRun.Round(sys, o, c, d)
  }

  lemma RoundMade(sys: Sys, o: Settings, c: Config, d: Config, r: seq<Cached>, t: TraceState)
    requires ReferIs(o.cacheSize, c.cache, c.s.mem, c.s.pc, Some(r)) && r != []
    requires t == Attempt(o, r[0].trace) && IsTrace(t.insts) && Executes(sys, t, c.s, d.s)
    requires d.cache == Flushed(t, r[0 := Cached(r[0].pc, t)])
    ensures RoundBetween(sys, o, c, d)
  {
    hide Executes, Flushed, Refer, Attempt;
    ReferHead(o.cacheSize, c.cache, c.s.mem, c.s.pc);
    AttemptInsts(o, r[0].trace);
  }

  lemma UnbuiltMade(sys: Sys, o: Settings, c: Config)
    ensures ReferIs(o.cacheSize, c.cache, c.s.mem, c.s.pc, None) ==> ThrowsAt(sys, o, c, c.s)
  {
    hide Refer, RunTrace;
  }

  lemma ThrownMade(sys: Sys, o: Settings, c: Config, d: GState, r: seq<Cached>, t: TraceState)
    requires ReferIs(o.cacheSize, c.cache, c.s.mem, c.s.pc, Some(r)) && r != []
    requires t == Attempt(o, r[0].trace) && IsTrace(t.insts) && !t.native && RunTrace(sys, t.insts, c.s) == Stopped(d)
    ensures ThrowsAt(sys, o, c, d)
  {
    hide Refer, Attempt, RunTrace;
    AttemptInsts(o, r[0].trace);
  }

  lemma ReferHead(size: nat, cache: seq<Cached>, mem: seq<Byte>, pc: Word)
    requires size >= 1 && |mem| <= 0x1_0000_0000
    ensures var r := Refer(size, cache, mem, pc); r.Some? ==> r.value != [] && r.value[0].pc == pc
  {
  }

  lemma AttemptInsts(o: Settings, t: TraceState)
    ensures Attempt(o, t).insts == t.insts
  {
  }

  ghost function ConfigOf(cache: LRUCache<Word, Trace>, state: State): Config
    requires state.Valid()
    reads cache, cache.entries, state, state.regs, state.mem
  {
    Config(state.View(), Traces(cache.entries))
  }

  lemma ConfigParts(cache: LRUCache<Word, Trace>, state: State)
    requires state.Valid()
    ensures var c := ConfigOf(cache, state);
            c.s == state.View() && c.cache == Traces(cache.entries) && c.s.mem == state.mem[..] && c.s.pc == state.pc
  {
    hide Traces, State.View;
    StateParts(state);
  }

  lemma RunningMade(o: Settings, c: Config, host: Machine, fuel: nat, r: seq<Cached>, t: Trace)
    requires ReferIs(o.cacheSize, c.cache, c.s.mem, c.s.pc, Some(r)) && r != []
    requires t.Valid() && t.View() == Attempt(o, r[0].trace) && t.execTrace.Some?
    requires !Steps(t.execTrace.value, At(0, host.(g := c.s)), fuel).Returned?
    ensures KeepsRunning(o, c, host, fuel)
  {
    hide Refer, Attempt, Supported, Compile, Steps, IsTrace;
    AttemptInsts(o, r[0].trace);
  }

  /** One round on the objects of the simulator. */
  method RoundOn(cache: LRUCache<Word, Trace>, decoder: DecoderTables.Decoder, state: State, jit: bool, threshold: nat,
                 sys: Sys, host: Machine, fuel: nat) returns (e: Ending)
    requires cache.Valid() && decoder.Valid() && state.Valid() && state.mem.Length <= 0x1_0000_0000 && AllValid(cache.entries)
    requires state.mem != cache.links.mInfo && state.regs as object != cache.links.mInfo
    requires state.mem as object != cache.links.mKeyVals && state.regs as object != cache.links.mKeyVals
    requires host.ok && host.base + state.mem.Length <= TWO64
    modifies cache, cache.links, cache.links.mInfo, cache.links.mKeyVals, cache.entries, state, state.regs, state.mem
    ensures forall c :: c in cache.entries ==> c in old(cache.entries) || fresh(c)
    ensures cache.links.mInfo == old(cache.links.mInfo) || fresh(cache.links.mInfo)
    ensures cache.links.mKeyVals == old(cache.links.mKeyVals) || fresh(cache.links.mKeyVals)
    ensures e == Finished ==> cache.Valid() && AllValid(cache.entries) && state.Valid()
    ensures e == Finished ==>
              RoundBetween(sys, Settings(cache.maxSize, jit, threshold), old(ConfigOf(cache, state)), ConfigOf(cache, state))
    ensures e == Finished ==> SetOf(cache.history) <= SetOf(old(cache.history)) + {old(state.pc)}
    ensures e == Finished || e == StillRunning ==> !old(cache.WillGiveUp(state.pc))
    ensures e == StillRunning ==>
              KeepsRunning(Settings(cache.maxSize, jit, threshold), old(ConfigOf(cache, state)), host, fuel)
    ensures e == Thrown ==>
              || old(cache.WillGiveUp(state.pc))
              || (&& state.Valid()
                  && ThrowsAt(sys, Settings(cache.maxSize, jit, threshold), old(ConfigOf(cache, state)), state.View()))
  {
    hide *;
    ghost var c, o, history, pc := ConfigOf(cache, state), Settings(cache.maxSize, jit, threshold), cache.history, state.pc;
    ConfigParts(cache, state);
    var t, r, ok := PrepareTrace(cache, decoder, state, jit, threshold);
    if !ok {
      UnbuiltMade(sys, o, c);
      return Thrown;
    }
    e := Perform(cache, t, r, o, c, state, sys, host, fuel);
    if e == Finished {
      HistoryGrows(cache.history, history, pc);
    }
  }

  /** The rest of a round: executes the trace in front and flushes after FENCE. */
  method Perform(cache: LRUCache<Word, Trace>, t: Trace, ghost r: seq<Cached>, ghost o: Settings, ghost c: Config, state: State,
                 sys: Sys, host: Machine, fuel: nat) returns (e: Ending)
    requires cache.Valid() && AllValid(cache.entries) && t.Valid() && IsTrace(t.View().insts) && state.Valid()
    requires state.mem != cache.links.mInfo && state.regs as object != cache.links.mInfo
    requires state.mem as object != cache.links.mKeyVals && state.regs as object != cache.links.mKeyVals
    requires host.ok && host.base + state.mem.Length <= TWO64
    requires ReferIs(o.cacheSize, c.cache, c.s.mem, c.s.pc, Some(r)) && r != [] && t.View() == Attempt(o, r[0].trace)
    requires Traces(cache.entries) == r[0 := Cached(r[0].pc, t.View())] && state.View() == c.s
    modifies cache, cache.links, cache.links.mInfo, cache.links.mKeyVals, state, state.regs, state.mem
    ensures cache.Valid() && AllValid(cache.entries) && state.Valid()
    ensures cache.entries == [] || cache.entries == old(cache.entries)
    ensures cache.links.mInfo == old(cache.links.mInfo) && cache.links.mKeyVals == old(cache.links.mKeyVals)
    ensures cache.history == [] || cache.history == old(cache.history)
    ensures e == Finished ==> RoundBetween(sys, o, c, ConfigOf(cache, state))
    ensures e == Thrown ==> ThrowsAt(sys, o, c, state.View())
    ensures e == StillRunning ==> KeepsRunning(o, c, host, fuel)
  {
    hide *;
    e := ExecuteTrace(sys, t, state, host, fuel);
    if e == Thrown {
      ValidTrace(t);
      ThrownMade(sys, o, c, state.View(), r, t.View());
    } else if e == Finished {
      FlushAfter(cache, t);
      ConfigParts(cache, state);
      RoundMade(sys, o, c, ConfigOf(cache, state), r, t.View());
    } else {
      RunningMade(o, c, host, fuel, r, t);
    }
  }

  lemma HistoryGrows(now: seq<Word>, history: seq<Word>, pc: Word)
    requires now == [] || now == history + [pc]
    ensures SetOf(now) <= SetOf(history) + {pc}
  {
  }

  ghost function CellSet(cells: seq<Cell<Word, Trace>>): (r: set<object>)
  {
    set c | c in cells
  }

  ghost function PcsOf(run: seq<Config>): set<Word> {
    set i | 0 <= i < |run| :: run[i].s.pc
  }

  lemma LastPc(run: seq<Config>)
    requires run != []
    ensures run[|run| - 1].s.pc in PcsOf(run)
  {
  }

  lemma PcsGrow(run: seq<Config>, c: Config)
    ensures PcsOf(run + [c]) == PcsOf(run) + {c.s.pc}
  {
    var longer := run + [c];
    assert forall i :: 0 <= i < |run| ==> longer[i] == run[i];
    assert longer[|run|] == c;
  }

  lemma HistoryPart(history: seq<Word>, pc: Word, all: set<Word>)
    requires SetOf(history) <= all && pc in all
    ensures SetOf(history + [pc]) <= all
  {
  }

  /** The hash is calm on the given trace heads, as any hash is with at most 126 cached traces. */
  ghost predicate IsCalm(hash: Word -> nat, size: nat, pcs: set<Word>) {
    size <= 126 || Calm(hash, pcs, size)
  }

  lemma CalmCache(cache: LRUCache<Word, Trace>, pc: Word, all: set<Word>)
    requires cache.Valid() && SetOf(cache.history + [pc]) <= all
    ensures IsCalm(cache.links.hash, cache.maxSize, all) ==> !cache.WillGiveUp(pc)
  {
    hide LRUCache.Valid, LRUCache.WillGiveUp, Calm, SetOf;
    if cache.maxSize <= 126 {
      FewAreCalm(cache.links.hash, all, cache.maxSize);
    }
    CalmPart(cache.links.hash, all, SetOf(cache.history + [pc]), cache.maxSize);
    if Calm(cache.links.hash, all, cache.maxSize) {
      cache.CalmGoesOn(pc);
    }
  }

  class Sim {
    const decoder: DecoderTables.Decoder
    const state: State
    const traceCache: LRUCache<Word, Trace>
    const jit: bool
    const jitThreshold: nat

    ghost function Repr(): set<object>
      reads this, traceCache, traceCache.links
    {
      {state, state.regs, state.mem, traceCache, traceCache.links, traceCache.links.mInfo, traceCache.links.mKeyVals}
      + CellSet(traceCache.entries)
    }

    ghost predicate Apart()
      reads this, traceCache, traceCache.links
    {
      && OutsideOf(decoder.opcToFmt) && OutsideOf(decoder.opcFunct3ToCmd)
      && !InLinks(state.regs) && !InLinks(state.mem) && state.regs as object != state.mem
    }

    ghost predicate InLinks(o: object)
      reads this, traceCache, traceCache.links
    {
      o == traceCache.links.mInfo || o == traceCache.links.mKeyVals
    }

    /** The array belongs neither to the state nor to the table of the cache. */
    ghost predicate OutsideOf(o: object)
      reads this, traceCache, traceCache.links
    {
      o != state.regs && o != state.mem && !InLinks(o)
    }

    ghost predicate Valid()
      reads this, decoder, decoder.opcToFmt, decoder.opcFunct3ToCmd, Repr()
    {
      && Apart() && decoder.Valid() && state.Valid() && traceCache.Valid() && AllValid(traceCache.entries)
      && state.mem.Length <= 0x1_0000_0000 && (jit || IsPlain(Traces(traceCache.entries)))
    }

    ghost function Options(): Settings {
      Settings(traceCache.maxSize, jit, jitThreshold)
    }

    ghost function View(): Config
      requires Valid()
      reads this, decoder, decoder.opcToFmt, decoder.opcFunct3ToCmd, Repr()
    {
      Config(state.View(), Traces(traceCache.entries))
    }

    constructor (image: seq<Byte>, pc: Word, cacheSize: nat, jit: bool, jitThreshold: nat, hash: Word -> nat)
      requires cacheSize >= 1 && |image| <= 0x1_0000_0000
      ensures Valid() && View().cache == [] && View().s.pc == pc && View().s.mem == image
      ensures Options() == Settings(cacheSize, jit, jitThreshold)
      ensures traceCache.history == [] && traceCache.links.hash == hash
      ensures fresh(Repr())
    {
      hide DecoderTables.Decoder.Valid, State.Valid, LRUCache.Valid, Guest.SetReg, State.View, AllValid, Traces, CellSet, KeysOf;
      decoder := new DecoderTables.Decoder();
      state := new State(image, pc);
      traceCache := new LRUCache(cacheSize, hash);
      this.jit, this.jitThreshold := jit, jitThreshold;
      new;
      StateParts(state);
      NoTraces();
    }

    /** One round of the loop in `Sim::execute`. */
    method Round(sys: Sys, host: Machine, fuel: nat) returns (e: Ending)
      requires Valid() && host.ok && host.base + state.mem.Length <= TWO64
      modifies Repr()
      ensures e == Finished ==> Valid() && RoundBetween(sys, Options(), old(View()), View())
      ensures e == Finished ==> SetOf(traceCache.history) <= SetOf(old(traceCache.history)) + {old(state.pc)}
      ensures e == Thrown ==>
                old(traceCache.WillGiveUp(state.pc)) || (state.Valid() && ThrowsAt(sys, Options(), old(View()), state.View()))
      ensures e == Finished || e == StillRunning ==> !old(traceCache.WillGiveUp(state.pc))
      ensures e == StillRunning ==> jit && KeepsRunning(Options(), old(View()), host, fuel)
      ensures fresh(Repr() - old(Repr()))
    {
      hide LRUCache.Valid, State.Valid, DecoderTables.Decoder.Valid, AllValid, Traces, State.View, RoundBetween,
        LRUCache.WillGiveUp, ThrowsAt, KeepsRunning, SetOf, IsPlain;
      ghost var c := View();
      e := RoundOn(traceCache, decoder, state, jit, jitThreshold, sys, host, fuel);
      if e == Finished {
        PlainBetween(sys, Options(), c, ConfigOf(traceCache, state));
      } else if e == StillRunning {
        PlainRuns(Options(), c, host, fuel);
      }
    }

    lemma CalmRound(before: set<Word>, run: seq<Config>)
      requires Valid() && run != [] && run[|run| - 1] == View() && SetOf(traceCache.history) <= before + PcsOf(run)
      ensures IsCalm(traceCache.links.hash, traceCache.maxSize, before + PcsOf(run)) ==> !traceCache.WillGiveUp(state.pc)
      ensures state.pc in PcsOf(run)
    {
      hide *;
      ValidParts();
      LastPc(run);
      HistoryPart(traceCache.history, state.pc, before + PcsOf(run));
      CalmCache(traceCache, state.pc, before + PcsOf(run));
    }

    lemma ValidParts()
      requires Valid()
      ensures traceCache.Valid() && View().s.pc == state.pc && View().s.executed == state.executed
    {
      hide LRUCache.Valid, DecoderTables.Decoder.Valid, AllValid, Traces;
    }

    /** `Sim::execute` for at most so many rounds: it ends early by an exception, by the instruction limit
        (0 for none), or by native code that does not return within the allowed steps. */
    method Execute(sys: Sys, host: Machine, maxInsts: nat, rounds: nat, fuel: nat) returns (e: Ending, ghost run: seq<Config>)
      requires Valid() && host.ok && host.base + state.mem.Length <= TWO64
      modifies Repr()
      ensures |run| > 0 && run[0] == old(View())
      ensures forall i :: 0 <= i < |run| - 1 ==> RoundBetween(sys, Options(), run[i], run[i + 1])
      ensures e == Finished ==> Valid() && View() == run[|run| - 1]
      ensures e == Finished ==> |run| == rounds + 1 || (maxInsts != 0 && state.executed >= maxInsts)
      ensures e == Thrown && IsCalm(traceCache.links.hash, traceCache.maxSize, SetOf(old(traceCache.history)) + PcsOf(run)) ==>
                state.Valid() && ThrowsAt(sys, Options(), run[|run| - 1], state.View())
      ensures e == StillRunning ==> jit && KeepsRunning(Options(), run[|run| - 1], host, fuel)
      ensures forall i :: 0 < i < |run| - (if e == Finished then 1 else 0) ==> maxInsts == 0 || run[i].s.executed < maxInsts
    {
      hide *;
      run := [View()];
      e := Finished;
      var k := 0;
      while k < rounds
        invariant Valid() && forall o :: o in Repr() ==> o in old(Repr()) || fresh(o)
        invariant |run| == k + 1 <= rounds + 1 && run[0] == old(View()) && run[k] == View() && e == Finished
        invariant forall i :: 0 <= i < k ==> RoundBetween(sys, Options(), run[i], run[i + 1])
        invariant forall i :: 0 < i <= k ==> maxInsts == 0 || run[i].s.executed < maxInsts
        invariant SetOf(traceCache.history) <= SetOf(old(traceCache.history)) + PcsOf(run)
      {
        CalmRound(SetOf(old(traceCache.history)), run);
        ghost var before := Repr();
        label L:
        e := Round(sys, host, fuel);
        forall o | o in Repr()
          ensures o in old(Repr()) || fresh(o)
        {
          if o !in before { assert !old@L(allocated(o)); }
        }
        if e != Finished {
          return;
        }
        PcsGrow(run, View());
        ValidParts();
        run := run + [View()];
        k := k + 1;
        if maxInsts != 0 && state.executed >= maxInsts {
          return;
        }
      }
    }
  }
}
