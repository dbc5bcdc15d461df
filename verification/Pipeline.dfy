/** The whole back end: compile in one pass, optimize the list, resolve the addresses, run. */
module Pipeline {
  import opened Machine
  import opened Source
  import opened Backpatch
  import opened Discipline
  import opened Blocks
  import opened Optimize
  import opened ClearPass
  import Layout
  import Correct
  import Typing
  import OnePass
  import opened Options

  type CState = OnePass.CState

  const MAX_PASSES: nat := 5

  /** The list the compiler hands to the optimizer. */
  function Listed(s: CState): Listing {
    Listing(seq(|s.words|, j requires 0 <= j < |s.words| => Node(j, 0, s.words[j].inst, s.words[j].inTry)), s.addrs)
  }

  ghost predicate Small(addrs: seq<OnePass.Addr>) {
    forall i :: 0 <= i < |addrs| ==> addrs[i].off <= 1
  }

  ghost predicate SmallOffsets(s: CState) {
    Small(s.addrs)
  }

  lemma {:induction false} PopsKeepAddrs(s: CState, n: nat)
    ensures OnePass.EmitTryPops(s, n).addrs == s.addrs
    decreases n
  {
    if n > 0 {
      PopsKeepAddrs(OnePass.Emit(s, TryPop), n - 1);
    }
  }

  lemma WithAddrSmall(addrs: seq<OnePass.Addr>, a: OnePass.Addr)
    requires a.off <= 1 && Small(addrs)
    ensures Small(OnePass.WithAddr(addrs, a))
  {}

  lemma ProcessSmall(s: CState, t: OnePass.Token)
    requires SmallOffsets(s) && OnePass.Process(s, t).Some?
    ensures SmallOffsets(OnePass.Process(s, t).value)
  {
    hide Small, OnePass.Lookup, OnePass.PatchAll, OnePass.Patch, SetTarget, OnePass.InLoop, OnePass.CountTrys,
        OnePass.LoopPlace, OnePass.AddExits, OnePass.EmitTryPops, OnePass.WithAddr;
    var n := |s.words|;
    PopsKeepAddrs(s, OnePass.CountTrys(s.control));
    PopsKeepAddrs(s, s.trys);
    WithAddrSmall(s.addrs, OnePass.Addr(n, 0));
    WithAddrSmall(s.addrs, OnePass.Addr(n, 1));
    WithAddrSmall(s.addrs, OnePass.Addr(n + 2, 0));
    WithAddrSmall(s.addrs, OnePass.Addr(OnePass.LoopPlace(s.control), 0));
    if s.control != [] {
      WithAddrSmall(OnePass.WithAddr(s.addrs, OnePass.Addr(n, 1)), OnePass.Addr(s.control[0].place, 0));
    }
    if t.TCall? && t.f < |s.procs| {
      WithAddrSmall(s.addrs, OnePass.Addr(s.procs[t.f], 0));
    }
  }

  /** The compiler makes only addresses with offset 0 or 1. */
  lemma {:induction false} CompileSmall(s: CState, ts: seq<OnePass.Token>)
    requires SmallOffsets(s) && OnePass.Compile(s, ts).Some?
    ensures SmallOffsets(OnePass.Compile(s, ts).value)
    decreases |ts|
  {
    hide OnePass.Process, SmallOffsets;
    if ts != [] {
      ProcessSmall(s, ts[0]);
      CompileSmall(OnePass.Process(s, ts[0]).value, ts[1..]);
    }
  }

  lemma ListedFind(s: CState, id: nat)
    ensures Find(Listed(s).nodes, id) == if id < |s.words| then id else |s.words|
  {
    var nodes := Listed(s).nodes;
    assert forall j :: 0 <= j < |nodes| ==> nodes[j].id == j;
    var i := Find(nodes, id);
    if id < |nodes| {
      assert nodes[id].id == id;
    }
  }

  /** Optimizing nothing, the list resolves to the code the compiler meant. */
  lemma ListedFlat(p: Prog, s: CState)
    requires WellFormedProg(p) && OnePass.Compile(OnePass.Initial, ProgToks(p)) == Some(s)
    ensures Flat(Listed(s)) == OnePass.FixAddresses(s)
  {
    hide Typed, AllNest, WellFormedProg, OnePass.Compile, Find;
    Typing.CompiledTyped(p, s);
    var l, code := Listed(s), OnePass.FixAddresses(s);
    forall j | 0 <= j < |s.words| ensures Flat(l)[j] == code[j] {
      if HasTarget(s.words[j].inst) {
        JumpListed(p, s, j);
      }
    }
  }

  /** A compiled jump names an entry of the table that stands for an instruction. */
  lemma {:induction false} JumpListed(p: Prog, s: CState, j: nat)
    requires Typed(OnePass.FixAddresses(s), AllNest(p)) && |s.words| == |AllNest(p)|
    requires j < |s.words| && HasTarget(s.words[j].inst) && s.words[j].inst.target < |s.addrs|
    ensures
      var k := s.words[j].inst.target;
      && OnePass.Resolve(s.addrs, k) < |s.words|
      && Target(Listed(s), k) == OnePass.Resolve(s.addrs, k)
      && Find(Listed(s).nodes, s.addrs[k].node) < |s.words|
  {
    hide Find;
    assert TypedAt(OnePass.FixAddresses(s), AllNest(p), j);
    var k := s.words[j].inst.target;
    assert OnePass.Resolve(s.addrs, k) < |s.words|;
    ListedFind(s, s.addrs[k].node);
  }

  lemma {:induction false} ListedReady(p: Prog, s: CState, f: nat)
    requires WellFormedProg(p) && OnePass.Compile(OnePass.Initial, ProgToks(p)) == Some(s) && f < |p|
    ensures WellLinked(Listed(s)) && Typed(Flat(Listed(s)), AllNest(p)) && Noted(Listed(s).nodes, AllNest(p))
    ensures |s.procs| == |p| && Header(Listed(s), s.procs[f])
    ensures forall arg :: StartAt(Listed(s), s.procs[f], arg) == Correct.Start(s.procs, f, arg)
  {
    hide Typed, AllNest, WellFormedProg, OnePass.Compile, Find, Layout.Loaded, ProcStands;
    Typing.CompiledTyped(p, s);
    ListedFlat(p, s);
    CompileSmall(OnePass.Initial, ProgToks(p));
    var l := Listed(s);
    forall j | 0 <= j < |l.nodes| && HasTarget(l.nodes[j].inst) ensures Reaches(l, l.nodes[j].inst.target) {
      JumpListed(p, s, j);
    }
    var s' := OnePassIsLayout(p);
    EntryHeader(p, s, f);
    ListedFind(s, s.procs[f]);
  }

  lemma EntryHeader(p: Prog, s: CState, f: nat)
    requires Layout.Loaded(OnePass.FixAddresses(s), s.procs, p) && f < |p|
    ensures s.procs[f] < |s.words| && s.words[s.procs[f]].inst.Function?
  {
    var code := OnePass.FixAddresses(s);
    Correct.ProcParts(code, p[f], s.procs[f], s.procs);
    assert code[s.procs[f]].Function?;
  }

  /** The list after all the passes. */
  function Optimized(s: CState): Listing {
    Passes(Listed(s), MAX_PASSES)
  }

  function Compiled(p: Prog): Option<CState> {
    OnePass.Compile(OnePass.Initial, ProgToks(p))
  }

  /** The interpreter about to run the last procedure of the optimized program. */
  function OptimizedStart(p: Prog, s: CState, arg: seq<Value>): Config
    requires 0 < |p| <= |s.procs|
  {
    StartAt(Optimized(s), s.procs[|p| - 1], arg)
  }

  /** The run of the program as compiled, before any optimization, is suitable. */
  ghost predicate SuitableRun(p: Prog, s: CState, arg: seq<Value>)
    requires 0 < |p| <= |s.procs|
  {
    GoodRun(OnePass.FixAddresses(s), Correct.Start(s.procs, |p| - 1, arg))
  }

  ghost predicate OptimizedYields(p: Prog, s: CState, arg: seq<Value>, r: Result)
    requires 0 < |p| <= |s.procs|
  {
    Yields(Flat(Optimized(s)), OptimizedStart(p, s, arg), r)
  }

  lemma OptimizedRefines(p: Prog, s: CState, arg: seq<Value>, r: Result)
    requires WellFormedProg(p) && |p| > 0 && Compiled(p) == Some(s)
    ensures |s.procs| == |p|
    ensures SuitableRun(p, s, arg) ==>
              (OptimizedYields(p, s, arg, r) <==> Yields(OnePass.FixAddresses(s), Correct.Start(s.procs, |p| - 1, arg), r))
  {
    hide Passes, Typed, AllNest, WellLinked, Noted, Header, WellFormedProg, StartAt, OnePass.Compile, GoodRun, Yields,
         Flat, OnePass.FixAddresses, Correct.Start;
    ListedReady(p, s, |p| - 1);
    ListedFlat(p, s);
    var id := s.procs[|p| - 1];
    var dep' := PassesSound(Listed(s), MAX_PASSES, id, arg, AllNest(p));
  }

  /** What the structured meaning of a program says it leaves. */
  ghost predicate Means(p: Prog, arg: seq<Value>, fuel: nat, r: Result)
    requires |p| > 0
  {
    var o := RunProg(p, arg, fuel);
    match r
    case Finished(a) => (o.Norm? || o.Retn?) && o.l.arg == a
    case Aborted(msg) => o.Err? && o.msg == msg
  }

  /** The compiled and optimized program computes what the structured program means. */
  lemma OptimizedAgrees(p: Prog, s: CState, arg: seq<Value>, fuel: nat, r: Result)
    requires WellFormedProg(p) && |p| > 0 && Compiled(p) == Some(s)
    requires Means(p, arg, fuel, r)
    ensures |s.procs| == |p|
    ensures SuitableRun(p, s, arg) ==> OptimizedYields(p, s, arg, r)
  {
    hide Eval, OnePass.Compile, Layout.Loaded, ProcStands, AllNest, WellFormed, SuitableRun, OptimizedYields, Ends,
        Optimized;
    var s' := OnePassIsLayout(p);
    var code, start := OnePass.FixAddresses(s), Correct.Start(s.procs, |p| - 1, arg);
    Correct.ProgramAgrees(p, code, s.procs, arg, fuel);
    OptimizedRefines(p, s, arg, r);
    var e := if r.Finished? then Correct.Finished(r.arg) else Dead(r.msg);
    assert Ends(code, start, e) && ResultOf(e) == r;
  }

  lemma SuitableNeverFaults(p: Prog, s: CState, arg: seq<Value>)
    requires 0 < |p| <= |s.procs| && SuitableRun(p, s, arg)
    ensures !Correct.FaultsEver(OnePass.FixAddresses(s), Correct.Start(s.procs, |p| - 1, arg))
  {
    hide OnePass.FixAddresses, Steps, Terminal;
    var code, start := OnePass.FixAddresses(s), Correct.Start(s.procs, |p| - 1, arg);
    forall n: nat ensures !Layout.Faults(code, Steps(code, start, n)) {
      var c := Steps(code, start, n);
      if !Terminal(c) {
        NeverFaults(code, c);
      }
    }
  }

  lemma NeverFaults(code: Code, c: Config)
    requires Suited(code, c)
    ensures !Layout.Faults(code, c)
  {}

  /** And nothing else: whatever it computes, the structured program means. */
  lemma OptimizedReflects(p: Prog, s: CState, arg: seq<Value>, r: Result) returns (fuel: nat)
    requires WellFormedProg(p) && |p| > 0 && Compiled(p) == Some(s) && |s.procs| == |p|
    requires SuitableRun(p, s, arg) && OptimizedYields(p, s, arg, r)
    ensures Means(p, arg, fuel, r)
  {
    hide Eval, OnePass.Compile, Layout.Loaded, ProcStands, AllNest, WellFormed, SuitableRun, OptimizedYields, Optimized,
        Steps;
    var s' := OnePassIsLayout(p);
    var code, start := OnePass.FixAddresses(s), Correct.Start(s.procs, |p| - 1, arg);
    OptimizedRefines(p, s, arg, r);
    var e :| Ends(code, start, e) && ResultOf(e) == r;
    fuel := Correct.MachineAgrees(p, code, s.procs, arg, e);
    SuitableNeverFaults(p, s, arg);
  }
}
