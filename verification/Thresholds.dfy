/** When a trace is translated: at its execution number threshold + 1 since it was cached, if it can be. */
module Thresholds {
  import opened Words
  import opened Isa
  import opened Guest
  import opened Arch
  import opened Host
  import opened Compiler
  import opened JitCorrect
  import opened SimRun
  import TemplateCorrect
  import Lru

  /** A trace that has been executed k times since it was cached. */
  function Considered(o: Settings, insts: seq<Inst>, k: nat): TraceState {
    if k == 0 then TraceState(insts, false, 0, true) else Attempt(o, Considered(o, insts, k - 1))
  }

  lemma {:induction false} TranslatedWhen(o: Settings, insts: seq<Inst>, k: nat)
    ensures var t := Considered(o, insts, k);
            && t.insts == insts
            && (t.native <==> o.jit && Supported(insts) && k > o.threshold)
            && (t.eligible <==> !(o.jit && !Supported(insts) && k > o.threshold))
            && t.execNum == if !o.jit then 0 else if k <= o.threshold then k else o.threshold + 1
  {
    hide Supported;
    if k > 0 {
      TranslatedWhen(o, insts, k - 1);
    }
  }

  predicate IsCached(cache: seq<Cached>, pc: Word) {
    exists j :: 0 <= j < |cache| && cache[j].pc == pc
  }

  /** How often the trace at pc has been executed before round i, since it was cached. */
  function Uses(run: seq<Config>, i: nat, pc: Word): nat
    requires i < |run|
  {
    if i == 0 || !IsCached(run[i].cache, pc) then 0
    else Uses(run, i - 1, pc) + if run[i - 1].s.pc == pc then 1 else 0
  }

  /** Every cached trace has been considered as often as it has been executed. */
  ghost predicate CountsUses(o: Settings, run: seq<Config>, i: nat)
    requires i < |run|
  {
    forall j :: 0 <= j < |run[i].cache| ==> UsesAt(o, run, i, run[i].cache[j])
  }

  ghost predicate UsesAt(o: Settings, run: seq<Config>, i: nat, c: Cached)
    requires i < |run|
  {
    c.trace == Considered(o, c.trace.insts, Uses(run, i, c.pc))
  }

  lemma DistinctKeys(sys: Sys, o: Settings, run: seq<Config>, i: nat)
    requires IsRounds(sys, o, run) && i < |run|
    ensures Lru.Distinct(Keys(run[i].cache))
  {
    hide IsRounds, Lru.Mru, Keys, Lru.Distinct, Lru.CacheKeys, Lru.Take;
    RunCacheKeys(sys, o, run, i);
    AtLeastOne(sys, o, run);
    Lru.CacheIsMostRecent(Executed(run, i), o.cacheSize);
    Lru.CacheDistinct(Executed(run, i), o.cacheSize);
  }

  lemma AtLeastOne(sys: Sys, o: Settings, run: seq<Config>)
    requires IsRounds(sys, o, run)
    ensures o.cacheSize >= 1
  {
  }

  /** What `refer` makes of the cache: the trace at pc in front, as it was cached or new, then others that were
      cached. */
  lemma ReferKeeps(size: nat, cache: seq<Cached>, mem: seq<Byte>, pc: Word)
    requires size >= 1 && |mem| <= 0x1_0000_0000 && Lru.Distinct(Keys(cache)) && Refer(size, cache, mem, pc).Some?
    ensures var r := Refer(size, cache, mem, pc).value;
            && r != [] && r[0].pc == pc
            && (if IsCached(cache, pc) then r[0] in cache else r[0].trace == TraceState(r[0].trace.insts, false, 0, true))
            && forall j :: 0 < j < |r| ==> r[j] in cache && r[j].pc != pc
  {
    hide Build;
    var r := Refer(size, cache, mem, pc).value;
    match Find(cache, pc)
    case Some(i) =>
      forall j | 0 < j < |r|
        ensures r[j] in cache && r[j].pc != pc
      {
        MovedAt(cache, i, j);
        var l := if j <= i then j - 1 else j;
        assert r[j] == cache[l] && Keys(cache)[l] != Keys(cache)[i];
      }
    case None =>
      forall j | 0 < j < |r|
        ensures r[j] in cache && r[j].pc != pc
      {
        assert r[j] == cache[j - 1];
      }
  }

  lemma {:induction false} UsesAreCounted(sys: Sys, o: Settings, run: seq<Config>, i: nat)
    requires IsRounds(sys, o, run) && i < |run|
    ensures CountsUses(o, run, i)
  {
    hide IsRound, Considered, UsesAt, Uses;
    if i > 0 {
      UsesAreCounted(sys, o, run, i - 1);
      assert IsRound(sys, o, run[i - 1], run[i]);
      DistinctKeys(sys, o, run, i - 1);
      forall j | 0 <= j < |run[i].cache|
        ensures UsesAt(o, run, i, run[i].cache[j])
      {
        UsesNext(sys, o, run, i, j);
      }
    }
  }

  lemma UsesNext(sys: Sys, o: Settings, run: seq<Config>, i: nat, j: nat)
    requires o.cacheSize >= 1 && 0 < i < |run| && IsRound(sys, o, run[i - 1], run[i]) && CountsUses(o, run, i - 1)
    requires Lru.Distinct(Keys(run[i - 1].cache)) && j < |run[i].cache|
    ensures UsesAt(o, run, i, run[i].cache[j])
  {
    hide Refer, Executes, Considered, Attempt, Lru.Distinct, Keys;
    var c, d := run[i - 1], run[i];
    var r := Refer(o.cacheSize, c.cache, c.s.mem, c.s.pc).value;
    ReferKeeps(o.cacheSize, c.cache, c.s.mem, c.s.pc);
    assert IsCached(d.cache, d.cache[j].pc);
    if j > 0 {
      assert d.cache[j] == r[j];
      CachedUses(o, run, i - 1, r[j]);
    } else {
      assert d.cache[0] == Cached(c.s.pc, Attempt(o, r[0].trace));
      if IsCached(c.cache, c.s.pc) {
        CachedUses(o, run, i - 1, r[0]);
      }
      ConsideredNext(o, r[0].trace, Uses(run, i - 1, c.s.pc));
    }
  }

  lemma CachedUses(o: Settings, run: seq<Config>, i: nat, c: Cached)
    requires i < |run| && CountsUses(o, run, i) && c in run[i].cache
    ensures UsesAt(o, run, i, c)
  {
  }

  lemma ConsideredNext(o: Settings, t: TraceState, k: nat)
    requires t == Considered(o, t.insts, k) || (k == 0 && t == TraceState(t.insts, false, 0, true))
    ensures Attempt(o, t) == Considered(o, t.insts, k + 1) && Attempt(o, t).insts == t.insts
  {
  }

  /** A round executes its trace natively exactly when translation is on, the trace can be translated, and it has
      been executed at least `threshold` times since it was cached. */
  lemma NativeFromThreshold(sys: Sys, o: Settings, run: seq<Config>, i: nat)
    requires IsRounds(sys, o, run) && i < |run| && |run[i].s.mem| <= 0x1_0000_0000
    ensures o.cacheSize >= 1
    ensures var c := run[i];
            var r := Refer(o.cacheSize, c.cache, c.s.mem, c.s.pc);
            r.Some? ==>
              var t := Attempt(o, r.value[0].trace);
              t.native <==> o.jit && Supported(t.insts) && Uses(run, i, c.s.pc) >= o.threshold
  {
    hide Refer, Considered, Attempt, Lru.Distinct, Keys, IsRound, Supported;
    var c := run[i];
    var r := Refer(o.cacheSize, c.cache, c.s.mem, c.s.pc);
    if r.Some? {
      UsesAreCounted(sys, o, run, i);
      DistinctKeys(sys, o, run, i);
      ReferKeeps(o.cacheSize, c.cache, c.s.mem, c.s.pc);
      var k := Uses(run, i, c.s.pc);
      if IsCached(c.cache, c.s.pc) {
        CachedUses(o, run, i, r.value[0]);
      }
      ConsideredNext(o, r.value[0].trace, k);
      TranslatedWhen(o, r.value[0].trace.insts, k + 1);
    }
  }

  /** Native rounds run the compiled function from the State structure and take over what it leaves; the others run
      the interpreter. */
  lemma RoundRuns(sys: Sys, o: Settings, run: seq<Config>, i: nat)
    requires IsRounds(sys, o, run) && i + 1 < |run|
    ensures o.cacheSize >= 1 && |run[i].s.mem| <= 0x1_0000_0000
    ensures Refer(o.cacheSize, run[i].cache, run[i].s.mem, run[i].s.pc).Some?
    ensures var c := run[i];
            var insts := Refer(o.cacheSize, c.cache, c.s.mem, c.s.pc).value[0].trace.insts;
            && IsTrace(insts)
            && if o.jit && Supported(insts) && Uses(run, i, c.s.pc) >= o.threshold
               then exists m: Machine, n: Machine ::
                 m.ok && m.g == c.s && n.g == run[i + 1].s && Reaches(Compile(insts), At(0, m), Returned(n))
               else RunTrace(sys, insts, c.s) == Running(run[i + 1].s)
  {
    hide Refer, Attempt, Supported, Compile, RunTrace, Steps, IsTrace;
    assert IsRound(sys, o, run[i], run[i + 1]);
    NativeFromThreshold(sys, o, run, i);
    var c := run[i];
    var t := Attempt(o, Refer(o.cacheSize, c.cache, c.s.mem, c.s.pc).value[0].trace);
    SameInsts(o, Refer(o.cacheSize, c.cache, c.s.mem, c.s.pc).value[0].trace);
    if t.native {
      var m: Machine :| m.ok && m.g == c.s && TemplateCorrect.Fits(m) && NativeReturns(t.insts, m, run[i + 1].s);
      var n := ReturnedMachine(t.insts, m, run[i + 1].s);
    }
  }

  lemma SameInsts(o: Settings, t: TraceState)
    ensures Attempt(o, t).insts == t.insts
  {
  }

  lemma ReturnedMachine(trace: seq<Inst>, m: Machine, t: GState) returns (n: Machine)
    requires NativeReturns(trace, m, t)
    ensures n.g == t && Reaches(Compile(trace), At(0, m), Returned(n))
  {
    hide Compile, Steps;
    var k: nat :| Steps(Compile(trace), At(0, m), k).Returned? && Steps(Compile(trace), At(0, m), k).m.g == t;
    n := Steps(Compile(trace), At(0, m), k).m;
  }

  /** Native code can be still running only in such a round. */
  lemma StillRunningFrom(sys: Sys, o: Settings, run: seq<Config>, i: nat, host: Machine, fuel: nat)
    requires IsRounds(sys, o, run) && i < |run| && KeepsRunning(o, run[i], host, fuel)
    ensures var c := run[i];
            var insts := Refer(o.cacheSize, c.cache, c.s.mem, c.s.pc).value[0].trace.insts;
            && o.jit && Supported(insts) && Uses(run, i, c.s.pc) >= o.threshold
            && !Steps(Compile(insts), At(0, host.(g := c.s)), fuel).Returned?
  {
    hide Refer, Attempt, Supported, Compile, Steps;
    NativeFromThreshold(sys, o, run, i);
    SameInsts(o, Refer(o.cacheSize, run[i].cache, run[i].s.mem, run[i].s.pc).value[0].trace);
  }
}
