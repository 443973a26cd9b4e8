/** Whole runs of the simulator: the trace cache, the threshold and native code are invisible to a
    machine that steps one instruction at a time. */
module SimRun {
  import opened Words
  import opened Isa
  import opened Guest
  import opened Options
  import opened Host
  import opened Arch
  import opened Compiler
  import opened JitCorrect
  import opened Stops
  import TemplateCorrect
  import Lru

  // ----- configurations -----

  datatype Settings = Settings(cacheSize: nat, jit: bool, threshold: nat)

  /** A cached trace: its instructions, whether it has native code, how often it was considered for
      translation, and whether translation may still be tried. */
  datatype TraceState = TraceState(insts: seq<Inst>, native: bool, execNum: nat, eligible: bool)

  datatype Cached = Cached(pc: Word, trace: TraceState)

  datatype Config = Config(s: GState, cache: seq<Cached>)

  function Find(cache: seq<Cached>, pc: Word): (r: Option<nat>)
    ensures r.Some? ==> r.value < |cache| && cache[r.value].pc == pc
    ensures r.None? ==> forall i :: 0 <= i < |cache| ==> cache[i].pc != pc
  {
    if cache == [] then None
    else if cache[0].pc == pc then Some(0)
    else
      match Find(cache[1..], pc)
      case None => None
      case Some(i) => Some(i + 1)
  }

  /** `refer`: the cached trace moves to the front, or a new one is built, unless building throws. */
  function Refer(size: nat, cache: seq<Cached>, mem: seq<Byte>, pc: Word): (r: Option<seq<Cached>>)
    requires size >= 1 && |mem| <= 0x1_0000_0000
    ensures r.Some? ==> r.value != [] && r.value[0].pc == pc
  {
    match Find(cache, pc)
    case Some(i) => Some([cache[i]] + cache[..i] + cache[i + 1..])
    case None =>
      match Build(mem, pc)
      case None => None
      case Some(insts) =>
        var kept := if |cache| < size then cache else cache[..|cache| - 1];
        Some([Cached(pc, TraceState(insts, false, 0, true))] + kept)
  }

  /** The attempt to translate at the start of `Trace::execute`. */
  function Attempt(o: Settings, t: TraceState): TraceState {
    if o.jit && t.eligible && !t.native then
      var counted := t.(execNum := t.execNum + 1);
      if o.threshold != t.execNum then counted
      else if Supported(t.insts) then counted.(native := true) else counted.(eligible := false)
    else t
  }

  /** Executing a trace: native code on any host state, or the interpreter. */
  ghost predicate Executes(sys: Sys, t: TraceState, s: GState, r: GState)
    requires IsTrace(t.insts)
  {
    if t.native then
      exists m: Machine :: m.ok && m.g == s && TemplateCorrect.Fits(m) && NativeReturns(t.insts, m, r)
    else RunTrace(sys, t.insts, s) == Running(r)
  }

  /** FENCE empties the cache. */
  function Flushed(t: TraceState, cache: seq<Cached>): seq<Cached>
    requires IsTrace(t.insts)
  {
    if t.insts[|t.insts| - 1].cmd == FENCE then [] else cache
  }

  /** One round of `Sim::execute` from c to d. */
  ghost predicate Round(sys: Sys, o: Settings, c: Config, d: Config)
    requires o.cacheSize >= 1 && |c.s.mem| <= 0x1_0000_0000
  {
    var r := Refer(o.cacheSize, c.cache, c.s.mem, c.s.pc);
    && r.Some? && IsTrace(r.value[0].trace.insts)
    && var t := Attempt(o, r.value[0].trace);
      && Executes(sys, t, c.s, d.s)
      && d.cache == Flushed(t, r.value[0 := Cached(c.s.pc, t)])
  }

  /** A round that throws and leaves the state d: no trace can be built at pc, or the interpreter stops inside it. */
  ghost predicate ThrowsAt(sys: Sys, o: Settings, c: Config, d: GState) {
    && o.cacheSize >= 1 && |c.s.mem| <= 0x1_0000_0000
    && match Refer(o.cacheSize, c.cache, c.s.mem, c.s.pc)
       case None => d == c.s
       case Some(r) =>
         && IsTrace(r[0].trace.insts) && !Attempt(o, r[0].trace).native
         && RunTrace(sys, r[0].trace.insts, c.s) == Stopped(d)
  }

  /** A round whose native code has not returned after so many steps from the given host state. */
  ghost predicate KeepsRunning(o: Settings, c: Config, host: Machine, fuel: nat) {
    && o.cacheSize >= 1 && |c.s.mem| <= 0x1_0000_0000
    && match Refer(o.cacheSize, c.cache, c.s.mem, c.s.pc)
       case None => false
       case Some(r) =>
         && Supported(r[0].trace.insts) && Attempt(o, r[0].trace).native
         && !Steps(Compile(r[0].trace.insts), At(0, host.(g := c.s)), fuel).Returned?
  }

  // ----- what a round does to the cache -----

  /** Without translation there is no native code. */
  predicate IsPlain(cache: seq<Cached>) {
    forall i :: 0 <= i < |cache| ==> !cache[i].trace.native
  }

  lemma ReferPlain(size: nat, cache: seq<Cached>, mem: seq<Byte>, pc: Word)
    requires size >= 1 && |mem| <= 0x1_0000_0000 && IsPlain(cache)
    ensures var r := Refer(size, cache, mem, pc); r.Some? ==> IsPlain(r.value)
  {
    hide Build, Find;
  }

  lemma PlainStays(sys: Sys, o: Settings, c: Config, d: Config)
    requires o.cacheSize >= 1 && |c.s.mem| <= 0x1_0000_0000 && !o.jit && IsPlain(c.cache) && Round(sys, o, c, d)
    ensures IsPlain(d.cache)
  {
    hide Refer, Executes;
    ReferPlain(o.cacheSize, c.cache, c.s.mem, c.s.pc);
  }

  lemma PlainReturns(o: Settings, c: Config, host: Machine, fuel: nat)
    requires KeepsRunning(o, c, host, fuel) && IsPlain(c.cache)
    ensures o.jit
  {
    hide Refer, Supported, Compile, Steps;
    ReferPlain(o.cacheSize, c.cache, c.s.mem, c.s.pc);
  }

  /** A round leaves the cache empty exactly when the trace it executes ends with FENCE. */
  lemma FenceEmpties(sys: Sys, o: Settings, c: Config, d: Config)
    requires o.cacheSize >= 1 && |c.s.mem| <= 0x1_0000_0000 && Round(sys, o, c, d)
    ensures var r := Refer(o.cacheSize, c.cache, c.s.mem, c.s.pc);
            && r.Some? && r.value[0].trace.insts != []
            && (d.cache == [] <==> r.value[0].trace.insts[|r.value[0].trace.insts| - 1].cmd == FENCE)
  {
    hide Refer, Executes;
  }

  /** So the round after it executes what memory holds then: code stored before a FENCE is seen. */
  lemma FenceIsSeen(sys: Sys, o: Settings, c: Config, d: Config, e: Config)
    requires o.cacheSize >= 1 && |c.s.mem| <= 0x1_0000_0000 && |d.s.mem| <= 0x1_0000_0000
    requires Round(sys, o, c, d) && Round(sys, o, d, e)
    requires var insts := Refer(o.cacheSize, c.cache, c.s.mem, c.s.pc).value[0].trace.insts; insts[|insts| - 1].cmd == FENCE
    ensures var t := Attempt(o, Refer(o.cacheSize, d.cache, d.s.mem, d.s.pc).value[0].trace);
            Build(d.s.mem, d.s.pc) == Some(t.insts) && Executes(sys, t, d.s, e.s)
  {
    hide Build, Executes;
    FenceEmpties(sys, o, c, d);
  }

  // ----- what a run must not do -----

  /** The addresses of n words from a on. */
  function Bytes(a: nat, n: nat): set<nat> {
    if n == 0 then {} else Bytes(a, n - 1) + {a + 4 * n - 4, a + 4 * n - 3, a + 4 * n - 2, a + 4 * n - 1}
  }

  /** The addresses of all cached traces. */
  function CachedCode(cache: seq<Cached>): set<nat> {
    if cache == [] then {} else Bytes(cache[0].pc, |cache[0].trace.insts|) + CachedCode(cache[1..])
  }

  /** No pass stores into the code, for each of the first k passes that take place. */
  ghost predicate SparesPasses(sys: Sys, trace: seq<Inst>, s: GState, k: nat, code: set<nat>)
    requires IsTrace(trace)
    decreases k
  {
    k > 0 ==>
      && SparesCode(sys, trace, 0, s, code)
      && (BackEdgeFrom(sys, trace, 0, s) ==> SparesPasses(sys, trace, RunTrace(sys, trace, s).s, k - 1, code))
  }

  /** The guards of one execution: it spares the given code, and natively it meets those of the translator. */
  ghost predicate ExecutionIsSafe(sys: Sys, t: TraceState, s: GState, code: set<nat>)
    requires IsTrace(t.insts)
  {
    if t.native then Translatable(t.insts) && Safe(sys, t.insts, s) && forall k: nat :: SparesPasses(sys, t.insts, s, k, code)
    else SparesCode(sys, t.insts, 0, s, code)
  }

  /** The side conditions of one round: the trace it executes is what would be built now, and executing it does
      not store into its own words. */
  ghost predicate RoundIsSafe(sys: Sys, o: Settings, c: Config)
    requires o.cacheSize >= 1 && |c.s.mem| <= 0x1_0000_0000
  {
    var r := Refer(o.cacheSize, c.cache, c.s.mem, c.s.pc);
    r.Some? && IsTrace(r.value[0].trace.insts) ==>
      var t := Attempt(o, r.value[0].trace);
      Build(c.s.mem, c.s.pc) == Some(t.insts) && ExecutionIsSafe(sys, t, c.s, Bytes(c.s.pc, |t.insts|))
  }

  /** A stronger condition that needs no look at what is cached and what is in memory: no store into a word of
      any cached trace. */
  ghost predicate RoundSparesCache(sys: Sys, o: Settings, c: Config)
    requires o.cacheSize >= 1 && |c.s.mem| <= 0x1_0000_0000
  {
    var r := Refer(o.cacheSize, c.cache, c.s.mem, c.s.pc);
    r.Some? && IsTrace(r.value[0].trace.insts) ==>
      ExecutionIsSafe(sys, Attempt(o, r.value[0].trace), c.s, CachedCode(r.value))
  }

  // ----- coherence of the cache -----

  /** Every cached trace is what would be built from memory now. */
  predicate Coherent(cache: seq<Cached>, mem: seq<Byte>)
    requires |mem| <= 0x1_0000_0000
  {
    forall i :: 0 <= i < |cache| ==> Build(mem, cache[i].pc) == Some(cache[i].trace.insts)
  }

  lemma {:induction false} BytesCover(a: Word, n: nat)
    ensures Covers(Bytes(a, n), a, n)
  {
    if n > 0 {
      BytesCover(a, n - 1);
    }
  }

  lemma {:induction false} CodeCovers(cache: seq<Cached>, i: nat)
    requires i < |cache|
    ensures Covers(CachedCode(cache), cache[i].pc, |cache[i].trace.insts|)
  {
    if i == 0 {
      BytesCover(cache[0].pc, |cache[0].trace.insts|);
    } else {
      CodeCovers(cache[1..], i - 1);
    }
  }

  /** A trace is rebuilt the same from memory with the same code bytes. */
  lemma {:induction false} BuildSame(mem: seq<Byte>, other: seq<Byte>, code: set<nat>, a: Word)
    requires |mem| <= 0x1_0000_0000 && SameCode(mem, other, code) && Build(mem, a).Some?
    requires Covers(code, a, |Build(mem, a).value|)
    ensures Build(other, a) == Build(mem, a)
    decreases |mem| - a
  {
    hide Fetch;
    BuildStep(mem, a);
    var trace := Build(mem, a).value;
    SameFetch(mem, other, code, a, |trace|, 0);
    if |trace| > 1 {
      BuildSame(mem, other, code, a + 4);
    }
  }

  lemma CoherentStays(cache: seq<Cached>, mem: seq<Byte>, other: seq<Byte>)
    requires |mem| <= 0x1_0000_0000 && Coherent(cache, mem) && SameCode(mem, other, CachedCode(cache))
    ensures |other| == |mem| && Coherent(cache, other)
  {
    hide Build, CachedCode, Covers;
    forall i | 0 <= i < |cache|
      ensures Build(other, cache[i].pc) == Some(cache[i].trace.insts)
    {
      CodeCovers(cache, i);
      BuildSame(mem, other, CachedCode(cache), cache[i].pc);
    }
  }

  lemma ReferCoherent(size: nat, cache: seq<Cached>, mem: seq<Byte>, pc: Word)
    requires size >= 1 && |mem| <= 0x1_0000_0000 && Coherent(cache, mem)
    ensures var r := Refer(size, cache, mem, pc);
            r.Some? ==> Coherent(r.value, mem) && Build(mem, pc) == Some(r.value[0].trace.insts)
  {
    hide Build, Find, Coherent;
    match Find(cache, pc)
    case Some(j) => MovedCoherent(cache, mem, j);
    case None =>
      if Build(mem, pc).Some? {
        PushedCoherent(if |cache| < size then cache else cache[..|cache| - 1], cache, mem,
                       Cached(pc, TraceState(Build(mem, pc).value, false, 0, true)));
      }
  }

  lemma MovedCoherent(cache: seq<Cached>, mem: seq<Byte>, j: nat)
    requires |mem| <= 0x1_0000_0000 && j < |cache| && Coherent(cache, mem)
    ensures Coherent([cache[j]] + cache[..j] + cache[j + 1..], mem) && Build(mem, cache[j].pc) == Some(cache[j].trace.insts)
  {
    hide Build;
    var r := [cache[j]] + cache[..j] + cache[j + 1..];
    forall i | 0 <= i < |r|
      ensures Build(mem, r[i].pc) == Some(r[i].trace.insts)
    {
      MovedAt(cache, j, i);
    }
  }

  lemma MovedAt(cache: seq<Cached>, j: nat, i: nat)
    requires j < |cache| && i < |cache|
    ensures ([cache[j]] + cache[..j] + cache[j + 1..])[i] == cache[if i == 0 then j else if i <= j then i - 1 else i]
  {
  }

  lemma PushedCoherent(kept: seq<Cached>, cache: seq<Cached>, mem: seq<Byte>, first: Cached)
    requires |mem| <= 0x1_0000_0000 && kept <= cache && Coherent(cache, mem) && Build(mem, first.pc) == Some(first.trace.insts)
    ensures Coherent([first] + kept, mem)
  {
    hide Build;
    var r := [first] + kept;
    forall i | 0 <= i < |r|
      ensures Build(mem, r[i].pc) == Some(r[i].trace.insts)
    {
      assert r[i] == if i == 0 then first else cache[i - 1];
    }
  }

  // ----- one round is some steps of the reference machine -----

  lemma {:induction false} SparesRun(sys: Sys, trace: seq<Inst>, i: nat, s: GState, code: set<nat>)
    requires IsTrace(trace) && i < |trace| && SparesCode(sys, trace, i, s, code)
    ensures SameCode(s.mem, RunFrom(sys, trace, i, s).s.mem, code)
    decreases |trace| - i
  {
    hide Step, RunFrom, SparesCode;
    SparesStep(sys, trace, i, s, code);
    RunFromStep(sys, trace, i, s);
    var o := Step(sys, trace[i], 4 * i, s);
    if o.Running? && i + 1 < |trace| {
      SparesRun(sys, trace, i + 1, o.s, code);
      SameCodeTrans(s.mem, o.s.mem, RunFrom(sys, trace, i, s).s.mem, code);
    }
  }

  lemma SparesTrace(sys: Sys, trace: seq<Inst>, s: GState, code: set<nat>)
    requires IsTrace(trace) && SparesCode(sys, trace, 0, s, code)
    ensures SameCode(s.mem, RunTrace(sys, trace, s).s.mem, code)
  {
    hide RunFrom, SparesCode, SameCode;
    SparesRun(sys, trace, 0, s, code);
  }

  lemma BackEdgeAtHead(sys: Sys, trace: seq<Inst>, s: GState)
    requires IsTrace(trace) && BackEdgeFrom(sys, trace, 0, s)
    ensures RunTrace(sys, trace, s).Running? && RunTrace(sys, trace, s).s.pc == s.pc
  {
    hide RunFrom, BackEdgeFrom;
    BackEdgeKeepsPc(sys, trace, 0, s);
  }

  lemma PassIsArch(sys: Sys, trace: seq<Inst>, s: GState, code: set<nat>)
    requires |s.mem| <= 0x1_0000_0000 && Build(s.mem, s.pc) == Some(trace) && IsTrace(trace)
    requires Covers(code, s.pc, |trace|) && SparesCode(sys, trace, 0, s, code) && RunTrace(sys, trace, s).Running?
    ensures ArchRun(sys, s, |trace|) == RunTrace(sys, trace, s)
    ensures SameCode(s.mem, RunTrace(sys, trace, s).s.mem, code)
  {
    hide RunTrace, ArchRun, Build, Covers, SparesCode, SameCode, StopsAfter;
    TraceIsArch(sys, trace, s, code);
    SparesTrace(sys, trace, s, code);
  }

  lemma FirstSpares(sys: Sys, trace: seq<Inst>, s: GState, k: nat, code: set<nat>)
    requires IsTrace(trace) && k > 0 && SparesPasses(sys, trace, s, k, code)
    ensures SparesCode(sys, trace, 0, s, code)
    ensures BackEdgeFrom(sys, trace, 0, s) ==> SparesPasses(sys, trace, RunTrace(sys, trace, s).s, k - 1, code)
  {
  }

  function PassSteps(k: nat, n: nat): nat {
    if k == 0 then 0 else n + PassSteps(k - 1, n)
  }

  /** k passes over a trace are k times its length steps of the reference machine. */
  lemma {:induction false} PassesAreArch(sys: Sys, trace: seq<Inst>, s: GState, k: nat, t: GState, code: set<nat>)
    requires |s.mem| <= 0x1_0000_0000 && Build(s.mem, s.pc) == Some(trace) && IsTrace(trace)
    requires Covers(code, s.pc, |trace|) && Passes(sys, trace, s, k, t) && SparesPasses(sys, trace, s, k, code)
    ensures k > 0 && ArchRun(sys, s, PassSteps(k, |trace|)) == Running(t) && SameCode(s.mem, t.mem, code)
    decreases k
  {
    hide Passes, SparesPasses, RunTrace, BackEdgeFrom, ArchRun, Build, Covers, SparesCode, SameCode, PassSteps;
    PassStepsNext(k, |trace|);
    PassStepsNext(1, |trace|);
    PassesRuns(sys, trace, s, k, t);
    FirstPass(sys, trace, s, k, t);
    FirstSpares(sys, trace, s, k, code);
    PassIsArch(sys, trace, s, code);
    var u := RunTrace(sys, trace, s).s;
    if BackEdgeFrom(sys, trace, 0, s) {
      BackEdgeAtHead(sys, trace, s);
      BuildSame(s.mem, u.mem, code, s.pc);
      PassesAreArch(sys, trace, u, k - 1, t, code);
      ArchRunAdd(sys, s, |trace|, PassSteps(k - 1, |trace|));
      SameCodeTrans(s.mem, u.mem, t.mem, code);
    }
  }

  lemma PassStepsNext(k: nat, n: nat)
    ensures PassSteps(0, n) == 0 && (k > 0 ==> PassSteps(k, n) == n + PassSteps(k - 1, n))
  {
  }

  lemma PassesRuns(sys: Sys, trace: seq<Inst>, s: GState, k: nat, t: GState)
    requires IsTrace(trace) && Passes(sys, trace, s, k, t)
    ensures k > 0 && RunTrace(sys, trace, s).Running?
  {
  }

  /** Executing a cached trace, natively or not, is a positive number of steps of the reference machine
      and leaves the code alone. */
  lemma ExecutesIsArch(sys: Sys, t: TraceState, s: GState, r: GState, code: set<nat>) returns (n: nat)
    requires |s.mem| <= 0x1_0000_0000 && Build(s.mem, s.pc) == Some(t.insts) && IsTrace(t.insts)
    requires Covers(code, s.pc, |t.insts|) && Executes(sys, t, s, r)
    requires ExecutionIsSafe(sys, t, s, code)
    ensures n > 0 && ArchRun(sys, s, n) == Running(r) && SameCode(s.mem, r.mem, code)
  {
    hide RunTrace, ArchRun, Build, Covers, SparesCode, SparesPasses, SameCode, NativeReturns, Passes, Translatable, Safe;
    if t.native {
      var k := NativePasses(sys, t.insts, s, r);
      PassesAreArch(sys, t.insts, s, k, r, code);
      n := PassSteps(k, |t.insts|);
    } else {
      PassIsArch(sys, t.insts, s, code);
      n := |t.insts|;
    }
  }

  lemma NativePasses(sys: Sys, trace: seq<Inst>, s: GState, r: GState) returns (k: nat)
    requires IsTrace(trace) && Translatable(trace) && Safe(sys, trace, s)
    requires exists m: Machine :: m.ok && m.g == s && TemplateCorrect.Fits(m) && NativeReturns(trace, m, r)
    ensures Passes(sys, trace, s, k, r)
  {
    hide Passes, NativeReturns, Translatable, Safe, TemplateCorrect.Fits;
    var m: Machine :| m.ok && m.g == s && TemplateCorrect.Fits(m) && NativeReturns(trace, m, r);
    CompilerCorrect(sys, trace, s, m, r);
    k :| Passes(sys, trace, s, k, r);
  }

  /** A round of the simulator is a positive number of steps of the reference machine. */
  lemma RoundIsArch(sys: Sys, o: Settings, c: Config, d: Config) returns (n: nat)
    requires o.cacheSize >= 1 && |c.s.mem| <= 0x1_0000_0000
    requires Round(sys, o, c, d) && RoundIsSafe(sys, o, c)
    ensures n > 0 && ArchRun(sys, c.s, n) == Running(d.s) && |d.s.mem| == |c.s.mem|
  {
    hide ArchRun, Build, Covers, SameCode, Executes, ExecutionIsSafe, Bytes, Refer, Flushed;
    var t := Attempt(o, Refer(o.cacheSize, c.cache, c.s.mem, c.s.pc).value[0].trace);
    var code := Bytes(c.s.pc, |t.insts|);
    BytesCover(c.s.pc, |t.insts|);
    n := ExecutesIsArch(sys, t, c.s, d.s, code);
    SameCodeSize(c.s.mem, d.s.mem, code);
  }

  lemma SameCodeSize(mem: seq<Byte>, other: seq<Byte>, code: set<nat>)
    requires SameCode(mem, other, code)
    ensures |other| == |mem|
  {
  }

  // ----- coherence is enough -----

  lemma {:induction false} SparesLess(sys: Sys, trace: seq<Inst>, i: nat, s: GState, code: set<nat>, part: set<nat>)
    requires IsTrace(trace) && i < |trace| && part <= code && SparesCode(sys, trace, i, s, code)
    ensures SparesCode(sys, trace, i, s, part)
    decreases |trace| - i
  {
    hide Step;
    var o := Step(sys, trace[i], 4 * i, s);
    if o.Running? && i + 1 < |trace| {
      SparesLess(sys, trace, i + 1, o.s, code, part);
    }
  }

  lemma {:induction false} SparesPassesLess(sys: Sys, trace: seq<Inst>, s: GState, k: nat, code: set<nat>, part: set<nat>)
    requires IsTrace(trace) && part <= code && SparesPasses(sys, trace, s, k, code)
    ensures SparesPasses(sys, trace, s, k, part)
    decreases k
  {
    hide RunTrace, BackEdgeFrom, SparesCode;
    if k > 0 {
      SparesLess(sys, trace, 0, s, code, part);
      if BackEdgeFrom(sys, trace, 0, s) {
        SparesPassesLess(sys, trace, RunTrace(sys, trace, s).s, k - 1, code, part);
      }
    }
  }

  lemma SafeForLess(sys: Sys, t: TraceState, s: GState, code: set<nat>, part: set<nat>)
    requires IsTrace(t.insts) && part <= code && ExecutionIsSafe(sys, t, s, code)
    ensures ExecutionIsSafe(sys, t, s, part)
  {
    hide Translatable, Safe, SparesPasses, SparesCode;
    if t.native {
      forall k: nat
        ensures SparesPasses(sys, t.insts, s, k, part)
      {
        SparesPassesLess(sys, t.insts, s, k, code, part);
      }
    } else {
      SparesLess(sys, t.insts, 0, s, code, part);
    }
  }

  /** In a coherent cache every trace is current, so sparing all of them is safe. */
  lemma CoherentIsSafe(sys: Sys, o: Settings, c: Config)
    requires o.cacheSize >= 1 && |c.s.mem| <= 0x1_0000_0000 && Coherent(c.cache, c.s.mem)
    requires RoundSparesCache(sys, o, c)
    ensures RoundIsSafe(sys, o, c)
  {
    hide Build, Coherent, ExecutionIsSafe, Refer, Bytes;
    var r := Refer(o.cacheSize, c.cache, c.s.mem, c.s.pc);
    if r.Some? && IsTrace(r.value[0].trace.insts) {
      ReferCoherent(o.cacheSize, c.cache, c.s.mem, c.s.pc);
      var t := Attempt(o, r.value[0].trace);
      SafeForLess(sys, t, c.s, CachedCode(r.value), Bytes(c.s.pc, |t.insts|));
    }
  }

  /** A round that spares the cached traces keeps the cache coherent. */
  lemma CoherentRound(sys: Sys, o: Settings, c: Config, d: Config)
    requires o.cacheSize >= 1 && |c.s.mem| <= 0x1_0000_0000 && Coherent(c.cache, c.s.mem)
    requires Round(sys, o, c, d) && RoundSparesCache(sys, o, c)
    ensures |d.s.mem| == |c.s.mem| && Coherent(d.cache, d.s.mem)
  {
    hide ArchRun, Build, Covers, SameCode, Executes, ExecutionIsSafe, CachedCode, Coherent, Refer, Flushed;
    var r := Refer(o.cacheSize, c.cache, c.s.mem, c.s.pc).value;
    var code, t := CachedCode(r), Attempt(o, r[0].trace);
    ReferCoherent(o.cacheSize, c.cache, c.s.mem, c.s.pc);
    CodeCovers(r, 0);
    var n := ExecutesIsArch(sys, t, c.s, d.s, code);
    CoherentStays(r, c.s.mem, d.s.mem);
    AttemptKeeps(r, t, d.s.mem, c.s.pc);
    FlushedCoherent(t, r[0 := Cached(c.s.pc, t)], d.s.mem);
  }

  lemma AttemptKeeps(cache: seq<Cached>, t: TraceState, mem: seq<Byte>, pc: Word)
    requires |mem| <= 0x1_0000_0000 && cache != [] && Coherent(cache, mem) && t.insts == cache[0].trace.insts && pc == cache[0].pc
    ensures Coherent(cache[0 := Cached(pc, t)], mem)
  {
    hide Build;
  }

  lemma FlushedCoherent(t: TraceState, cache: seq<Cached>, mem: seq<Byte>)
    requires |mem| <= 0x1_0000_0000 && IsTrace(t.insts) && Coherent(cache, mem)
    ensures Coherent(Flushed(t, cache), mem)
  {
  }

  // ----- whole runs -----

  /** A run: consecutive rounds, each within the side conditions. */
  ghost predicate IsRun(sys: Sys, o: Settings, run: seq<Config>) {
    && o.cacheSize >= 1 && |run| > 0 && |run[0].s.mem| <= 0x1_0000_0000
    && forall i :: 0 <= i < |run| - 1 ==> RoundAt(sys, o, run, i)
  }

  ghost predicate RoundAt(sys: Sys, o: Settings, run: seq<Config>, i: nat)
    requires o.cacheSize >= 1 && i < |run| - 1
  {
    |run[i].s.mem| <= 0x1_0000_0000 && Round(sys, o, run[i], run[i + 1]) && RoundIsSafe(sys, o, run[i])
  }

  /** The states at the head of the simulator's loop, for any cache size, threshold and with or without
      native code, are states of the one-instruction-at-a-time machine, in the same order. */
  lemma {:induction false} RunIsArch(sys: Sys, o: Settings, run: seq<Config>, i: nat) returns (at: seq<nat>)
    requires IsRun(sys, o, run) && i < |run|
    ensures |at| == i + 1 && at[0] == 0 && forall j :: 0 < j <= i ==> at[j - 1] < at[j]
    ensures forall j :: 0 <= j <= i ==> ArchRun(sys, run[0].s, at[j]) == Running(run[j].s)
    ensures |run[i].s.mem| == |run[0].s.mem|
  {
    hide Round, RoundIsSafe, ArchStep;
    if i == 0 {
      at := [0];
    } else {
      at := RunIsArch(sys, o, run, i - 1);
      assert RoundAt(sys, o, run, i - 1);
      hide IsRun, RoundAt, ArchRun;
      var n := RoundIsArch(sys, o, run[i - 1], run[i]);
      ArchRunAdd(sys, run[0].s, at[i - 1], n);
      at := at + [at[i - 1] + n];
    }
  }

  /** Rounds from an empty cache that never store into a cached trace. */
  ghost predicate SparesItsCache(sys: Sys, o: Settings, run: seq<Config>) {
    && o.cacheSize >= 1 && |run| > 0 && |run[0].s.mem| <= 0x1_0000_0000 && run[0].cache == []
    && forall i :: 0 <= i < |run| - 1 ==> SparingRound(sys, o, run[i], run[i + 1])
  }

  ghost predicate SparingRound(sys: Sys, o: Settings, c: Config, d: Config)
    requires o.cacheSize >= 1
  {
    |c.s.mem| <= 0x1_0000_0000 && Round(sys, o, c, d) && RoundSparesCache(sys, o, c)
  }

  lemma {:induction false} StaysCoherent(sys: Sys, o: Settings, run: seq<Config>, i: nat)
    requires SparesItsCache(sys, o, run) && i < |run|
    ensures |run[i].s.mem| <= 0x1_0000_0000 && Coherent(run[i].cache, run[i].s.mem)
  {
    hide Round, RoundSparesCache, Build;
    if i > 0 {
      StaysCoherent(sys, o, run, i - 1);
      assert SparingRound(sys, o, run[i - 1], run[i]);
      CoherentRound(sys, o, run[i - 1], run[i]);
    }
  }

  /** Such rounds make a run: the cache stays coherent with memory. */
  lemma SparingRunIsRun(sys: Sys, o: Settings, run: seq<Config>)
    requires SparesItsCache(sys, o, run)
    ensures IsRun(sys, o, run)
  {
    hide Round, RoundSparesCache, RoundIsSafe, Coherent;
    forall i | 0 <= i < |run| - 1
      ensures RoundAt(sys, o, run, i)
    {
      StaysCoherent(sys, o, run, i);
      assert SparingRound(sys, o, run[i], run[i + 1]);
      CoherentIsSafe(sys, o, run[i]);
    }
  }

  /** When the interpreter throws at the end of a run, the reference machine stops too, after more steps than it
      took to the last loop head, with the same registers and memory. */
  lemma ThrowIsArch(sys: Sys, o: Settings, run: seq<Config>, d: GState) returns (at: nat, k: nat)
    requires IsRun(sys, o, run) && |run| > 0 && ThrowsAt(sys, o, run[|run| - 1], d)
    requires var c := run[|run| - 1];
             RoundIsSafe(sys, o, c) && Refer(o.cacheSize, c.cache, c.s.mem, c.s.pc).Some?
    ensures ArchRun(sys, run[0].s, at) == Running(run[|run| - 1].s)
    ensures at <= k && StopsAfter(sys, run[0].s, k, d)
  {
    hide IsRun, ArchRun, Build, Covers, SparesCode, StopsAfter, Bytes, Refer, RunTrace;
    var c := run[|run| - 1];
    var steps := RunIsArch(sys, o, run, |run| - 1);
    at := steps[|run| - 1];
    var trace := Refer(o.cacheSize, c.cache, c.s.mem, c.s.pc).value[0].trace.insts;
    BytesCover(c.s.pc, |trace|);
    TraceIsArch(sys, trace, c.s, Bytes(c.s.pc, |trace|));
    var n: nat :| StopsAfter(sys, c.s, n, d);
    StopsLater(sys, run[0].s, at, n, d);
    k := at + n;
  }

  /** When no trace can be built at the end of a run, the simulator throws before it executes the instructions
      that do decode. The reference machine stops at once with the same registers and memory if and only if a
      guard of `StopsHere` holds. As long as no store changes the words ahead, it stops in any case, at exactly
      one step k, among those instructions or at the word that does not decode; so it can end like the simulator
      at step k only. */
  lemma UnbuiltIsArch(sys: Sys, o: Settings, run: seq<Config>, d: GState) returns (at: nat, n: nat, k: nat)
    requires IsRun(sys, o, run) && |run| > 0 && ThrowsAt(sys, o, run[|run| - 1], d)
    requires var c := run[|run| - 1]; Refer(o.cacheSize, c.cache, c.s.mem, c.s.pc) == None
    ensures ArchRun(sys, run[0].s, at) == Running(d) && |d.mem| <= 0x1_0000_0000 && Derails(d.mem, d.pc, n)
    ensures StopsAfter(sys, run[0].s, at, d) <==> StopsHere(sys, d)
    ensures LineStays(sys, d, n) ==>
              at <= k <= at + n && StopsAt(sys, run[0].s, k) && forall j :: StopsAfter(sys, run[0].s, j, d) ==> j == k
  {
    hide IsRun, ArchRun, Build, Derails, RunTrace, Refer, LineStays, StopsAfter, StopsHere, StopsAt;
    var steps := RunIsArch(sys, o, run, |run| - 1);
    at, k := steps[|run| - 1], 0;
    NotBuilt(o.cacheSize, run[|run| - 1].cache, d.mem, d.pc);
    BuildFails(d.mem, d.pc);
    n :| Derails(d.mem, d.pc, n);
    StopsHereAfter(sys, run[0].s, at, d);
    if LineStays(sys, d, n) {
      k := DerailedStops(sys, d, n);
      StopsAtLater(sys, run[0].s, at, k);
      k := at + k;
      forall j: nat | StopsAfter(sys, run[0].s, j, d)
        ensures j == k
      {
        StopsOnce(sys, run[0].s, j, k, d);
      }
    }
  }

  /** A stopped machine takes no further step. */
  lemma StopsOnce(sys: Sys, start: GState, j: nat, k: nat, t: GState)
    requires StopsAfter(sys, start, j, t) && StopsAt(sys, start, k)
    ensures j == k
  {
    hide ArchRun, ArchStep;
    ArchNext(sys, start, j);
    ArchNext(sys, start, k);
    if j < k {
      StaysStopped(sys, start, j + 1, k);
      assert false;
    } else if k < j {
      StaysStopped(sys, start, k + 1, j);
      assert false;
    }
  }

  lemma {:induction false} StaysStopped(sys: Sys, s: GState, i: nat, k: nat)
    requires i <= k && ArchRun(sys, s, i).Stopped?
    ensures ArchRun(sys, s, k).Stopped?
    decreases k
  {
    hide ArchStep;
    if i < k {
      StaysStopped(sys, s, i, k - 1);
    }
  }

  lemma NotBuilt(size: nat, cache: seq<Cached>, mem: seq<Byte>, pc: Word)
    requires size >= 1 && |mem| <= 0x1_0000_0000 && Refer(size, cache, mem, pc) == None
    ensures Build(mem, pc) == None
  {
    hide Build;
  }

  lemma StopsHereAfter(sys: Sys, start: GState, at: nat, d: GState)
    requires ArchRun(sys, start, at) == Running(d)
    ensures StopsAfter(sys, start, at, d) <==> StopsHere(sys, d)
  {
    hide ArchRun, ArchStep, StopsHere;
    StopsHereExactly(sys, d);
  }

  lemma StopsAtLater(sys: Sys, start: GState, at: nat, k: nat)
    requires ArchRun(sys, start, at).Running? && StopsAt(sys, ArchRun(sys, start, at).s, k)
    ensures StopsAt(sys, start, at + k)
  {
    hide ArchRun, ArchStep;
    ArchRunAdd(sys, start, at, k);
  }

  lemma StopsLater(sys: Sys, start: GState, at: nat, n: nat, t: GState)
    requires ArchRun(sys, start, at).Running? && StopsAfter(sys, ArchRun(sys, start, at).s, n, t)
    ensures StopsAfter(sys, start, at + n, t)
  {
    hide ArchRun, ArchStep;
    ArchRunAdd(sys, start, at, n);
  }

  /** Two runs of the same program with different settings follow one path: of any two loop-head states,
      one leads to the other. */
  lemma SettingsAreInvisible(sys: Sys, o: Settings, run: seq<Config>, i: nat, o': Settings, run': seq<Config>, i': nat)
    requires IsRun(sys, o, run) && i < |run| && IsRun(sys, o', run') && i' < |run'| && run[0].s == run'[0].s
    ensures exists n: nat :: ArchRun(sys, run[i].s, n) == Running(run'[i'].s) || ArchRun(sys, run'[i'].s, n) == Running(run[i].s)
  {
    hide IsRun, ArchRun;
    var at := RunIsArch(sys, o, run, i);
    var at' := RunIsArch(sys, o', run', i');
    var m, n := at[i], at'[i'];
    var s, t, u := run[0].s, run[i].s, run'[i'].s;
    assert ArchRun(sys, s, m) == Running(t) && ArchRun(sys, s, n) == Running(u);
    if m <= n {
      ArchRunAdd(sys, s, m, n - m);
      assert ArchRun(sys, t, n - m) == Running(u);
    } else {
      ArchRunAdd(sys, s, n, m - n);
      assert ArchRun(sys, u, m - n) == Running(t);
    }
  }

  // ----- the trace cache is the LRU cache -----

  function Keys(cache: seq<Cached>): (keys: seq<Word>)
    ensures |keys| == |cache| && forall i :: 0 <= i < |keys| ==> keys[i] == cache[i].pc
  {
    seq(|cache|, i requires 0 <= i < |cache| => cache[i].pc)
  }

  lemma HitTouches(cache: seq<Cached>, size: nat, i: nat)
    requires size >= 1 && Lru.Distinct(Keys(cache)) && i < |cache|
    ensures Keys([cache[i]] + cache[..i] + cache[i + 1..]) == Lru.Touch(Keys(cache), size, cache[i].pc)
  {
    hide Lru.Without;
    var keys := Keys(cache);
    assert keys[i] == cache[i].pc;
    Lru.WithoutIndex(keys, i);
  }

  lemma KeysPush(cache: seq<Cached>, first: Cached)
    ensures Keys([first] + cache) == [first.pc] + Keys(cache)
  {
  }

  lemma KeysFront(cache: seq<Cached>)
    requires cache != []
    ensures Keys(cache[..|cache| - 1]) == Keys(cache)[..|cache| - 1]
  {
  }

  lemma NotAmongKeys(cache: seq<Cached>, pc: Word)
    requires Find(cache, pc) == None
    ensures pc !in Keys(cache)
  {
  }

  lemma MissTouches(cache: seq<Cached>, size: nat, first: Cached)
    requires size >= 1 && Find(cache, first.pc) == None
    ensures Keys([first] + if |cache| < size then cache else cache[..|cache| - 1]) == Lru.Touch(Keys(cache), size, first.pc)
  {
    hide Lru.Without, Find, Keys;
    NotAmongKeys(cache, first.pc);
    if |cache| < size {
      KeysPush(cache, first);
    } else {
      KeysFront(cache);
      KeysPush(cache[..|cache| - 1], first);
    }
  }

  /** `refer` does to the keys what an LRU cache does. */
  lemma ReferTouches(size: nat, cache: seq<Cached>, mem: seq<Byte>, pc: Word)
    requires size >= 1 && |mem| <= 0x1_0000_0000 && Lru.Distinct(Keys(cache)) && Refer(size, cache, mem, pc).Some?
    ensures Keys(Refer(size, cache, mem, pc).value) == Lru.Touch(Keys(cache), size, pc)
  {
    hide Build, Lru.Touch, Lru.Distinct, Find;
    match Find(cache, pc)
    case Some(i) => HitTouches(cache, size, i);
    case None => MissTouches(cache, size, Cached(pc, TraceState(Build(mem, pc).value, false, 0, true)));
  }

  /** The addresses executed by the first i rounds since the last flush. */
  function Executed(run: seq<Config>, i: nat): seq<Word>
    requires i < |run|
  {
    if i == 0 || run[i].cache == [] then [] else Executed(run, i - 1) + [run[i - 1].s.pc]
  }

  lemma RoundKeys(sys: Sys, o: Settings, c: Config, d: Config)
    requires o.cacheSize >= 1 && |c.s.mem| <= 0x1_0000_0000 && Round(sys, o, c, d) && Lru.Distinct(Keys(c.cache))
    ensures d.cache == [] || Keys(d.cache) == Lru.Touch(Keys(c.cache), o.cacheSize, c.s.pc)
  {
    hide Executes, Refer, Lru.Touch, Attempt;
    ReferTouches(o.cacheSize, c.cache, c.s.mem, c.s.pc);
    var r := Refer(o.cacheSize, c.cache, c.s.mem, c.s.pc).value;
    assert Keys(r[0 := Cached(c.s.pc, Attempt(o, r[0].trace))]) == Keys(r);
  }

  /** Rounds from an empty cache, whatever they store and however the translator's code behaves. */
  ghost predicate IsRounds(sys: Sys, o: Settings, run: seq<Config>) {
    && o.cacheSize >= 1 && |run| > 0 && run[0].cache == []
    && forall i :: 0 <= i < |run| - 1 ==> IsRound(sys, o, run[i], run[i + 1])
  }

  ghost predicate IsRound(sys: Sys, o: Settings, c: Config, d: Config)
    requires o.cacheSize >= 1
  {
    |c.s.mem| <= 0x1_0000_0000 && Round(sys, o, c, d)
  }

  /** At every loop head the cache holds the traces executed most recently since the last flush, as many
      as fit, in order of recency. */
  lemma {:induction false} RunCacheKeys(sys: Sys, o: Settings, run: seq<Config>, i: nat)
    requires IsRounds(sys, o, run) && i < |run|
    ensures Keys(run[i].cache) == Lru.Take(Lru.Mru(Executed(run, i)), o.cacheSize)
  {
    hide Round, RoundIsSafe, Lru.Touch, Lru.CacheKeys, Lru.Mru;
    Lru.CacheIsMostRecent(Executed(run, i), o.cacheSize);
    NothingCached(o.cacheSize);
    if i > 0 {
      RunCacheKeys(sys, o, run, i - 1);
      assert IsRound(sys, o, run[i - 1], run[i]);
      var h := Executed(run, i - 1);
      Lru.CacheIsMostRecent(h, o.cacheSize);
      Lru.CacheDistinct(h, o.cacheSize);
      RoundKeys(sys, o, run[i - 1], run[i]);
      Lru.CacheNext(h, o.cacheSize, run[i - 1].s.pc);
    }
  }

  lemma NothingCached(size: nat)
    requires size >= 1
    ensures Lru.CacheKeys<Word>([], size) == []
  {
  }
}
