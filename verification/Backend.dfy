/** The compiler's main line: read the tokens, make the passes over the list, fix the addresses, copy the
program out. */
module Backend {
  import opened Machine
  import opened Source
  import opened Optimize
  import opened Pipeline
  import opened Backpatch
  import opened Discipline
  import opened Blocks
  import opened ClearPass
  import OnePass
  import Layout
  import Compiler
  import Optimizer

  /** From tokens to code: what comes out is the optimized list of what went in. */
  method Translate(ghost p: Prog, ts: seq<OnePass.Token>) returns (code: Code, procs: seq<nat>)
    requires WellFormedProg(p) && |p| > 0 && ts == ProgToks(p)
    ensures OnePass.Compile(OnePass.Initial, ts).Some?
    ensures
      var s := OnePass.Compile(OnePass.Initial, ts).value;
      code == Flat(Optimized(s)) && procs == s.procs
  {
    hide Passes, Typed, AllNest, WellLinked, Noted, Header, WellFormedProg, OnePass.Compile, OnePass.FixAddresses,
        StartAt, Find,
         Target, Layout.Loaded;
    ghost var s := OnePassIsLayout(p);
    ListedReady(p, s, 0);
    var cstat := new Compiler.CompState();
    var ok := cstat.CompileAll(ts);
    assert cstat.Snapshot() == s;
    var list := new Optimizer.Program(Listed(cstat.Snapshot()));
    list.OptimizeAll();
    code := CopyOut(list, s);
    procs := cstat.procs;
  }

  method CopyOut(list: Optimizer.Program, ghost s: CState) returns (code: Code)
    requires WellLinked(list.Snapshot()) && list.Snapshot() == Optimized(s)
    modifies list
    ensures code == Flat(Optimized(s))
  {
    hide Passes, WellLinked, Find, Target;
    list.FixAddresses();
    code := list.CopyProgram();
  }

  /** On every suitable run the code computes exactly what the program means. */
  ghost predicate Faithful(p: Prog, s: CState)
    requires 0 < |p| <= |s.procs|
  {
    forall arg: seq<Value>, r ::
      SuitableRun(p, s, arg) ==> (OptimizedYields(p, s, arg, r) <==> exists fuel :: Means(p, arg, fuel, r))
  }

  lemma TranslationFaithful(p: Prog)
    requires WellFormedProg(p) && |p| > 0
    ensures Compiled(p).Some? && |Compiled(p).value.procs| == |p|
    ensures Faithful(p, Compiled(p).value)
  {
    hide WellFormedProg, Means, SuitableRun, OptimizedYields, OnePass.Compile, Layout.Loaded;
    var s := OnePassIsLayout(p);
    forall arg: seq<Value>, r | SuitableRun(p, s, arg)
      ensures OptimizedYields(p, s, arg, r) <==> exists fuel :: Means(p, arg, fuel, r)
    {
      if OptimizedYields(p, s, arg, r) {
        var fuel := OptimizedReflects(p, s, arg, r);
      }
      if fuel :| Means(p, arg, fuel, r) {
        OptimizedAgrees(p, s, arg, fuel, r);
      }
    }
  }
}
