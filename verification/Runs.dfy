/** The discipline of the TRY stack, for the code the compiler makes and the code the optimizer makes of it. */
module Runs {
  import opened Machine
  import opened Source
  import opened Backpatch
  import opened Discipline
  import opened Optimize
  import opened ClearPass
  import opened Pipeline
  import Layout
  import Correct
  import Typing
  import OnePass

  /** Every moment of the run before a function header fails: the TRY stack is in order, and what lies below
      the depth of a TRY stays as it was while its record is there. */
  ghost predicate RunsInOrder(code: Code, dep: seq<nat>, c: Config)
    requires |dep| == |code|
  {
    && (forall n: nat :: CleanRun(code, c, n) && !Terminal(Steps(code, c, n)) ==>
          Disciplined(code, dep, Steps(code, c, n).st))
    && forall n: nat, m: nat :: CleanRun(code, c, n) ==> KeepsBelow(code, c, n, m)
  }

  lemma InOrder(code: Code, dep: seq<nat>, c: Config)
    requires Typed(code, dep) && Good(code, dep, c)
    ensures RunsInOrder(code, dep, c)
  {
    hide TypedAt, Good, CleanRun, Steps, Disciplined, KeepsBelow;
    forall n: nat | CleanRun(code, c, n) && !Terminal(Steps(code, c, n))
      ensures Disciplined(code, dep, Steps(code, c, n).st)
    {
      RunDiscipline(code, dep, c, n);
    }
    forall n: nat, m: nat | CleanRun(code, c, n) ensures KeepsBelow(code, c, n, m) {
      PrefixKept(code, dep, c, n, m);
    }
  }

  /** Compiled code, whatever procedure is run on whatever stack: the nesting is that of the source. */
  lemma CompiledRuns(p: Prog, f: nat, arg: seq<Value>)
    requires WellFormedProg(p) && f < |p|
    ensures Compiled(p).Some?
    ensures
      var s := Compiled(p).value;
      && |s.procs| == |p| && |OnePass.FixAddresses(s)| == |AllNest(p)|
      && RunsInOrder(OnePass.FixAddresses(s), AllNest(p), Correct.Start(s.procs, f, arg))
  {
    hide TypedAt, AllNest, WellFormedProg, OnePass.Compile, OnePass.FixAddresses, Flat, Good, RunsInOrder, Header, StartAt,
         Layout.Loaded, ProcStands;
    var s := OnePassIsLayout(p);
    ListedReady(p, s, f);
    ListedFlat(p, s);
    StartGood(Listed(s), s.procs[f], arg, AllNest(p));
    InOrder(OnePass.FixAddresses(s), AllNest(p), Correct.Start(s.procs, f, arg));
  }

  /** Optimized code likewise, with the nesting that is left of it. */
  lemma OptimizedRuns(p: Prog, f: nat, arg: seq<Value>) returns (dep: seq<nat>)
    requires WellFormedProg(p) && f < |p|
    ensures Compiled(p).Some?
    ensures
      var s := Compiled(p).value;
      && |s.procs| == |p| && |Flat(Optimized(s))| == |dep|
      && Typed(Flat(Optimized(s)), dep)
      && RunsInOrder(Flat(Optimized(s)), dep, StartAt(Optimized(s), s.procs[f], arg))
  {
    hide TypedAt, AllNest, WellFormedProg, OnePass.Compile, OnePass.FixAddresses, Flat, Good, RunsInOrder, Header, StartAt,
         Layout.Loaded, ProcStands, Passes, WellLinked, Noted;
    var s := OnePassIsLayout(p);
    ListedReady(p, s, f);
    dep := PassesSound(Listed(s), MAX_PASSES, s.procs[f], arg, AllNest(p));
    StartGood(Optimized(s), s.procs[f], arg, dep);
    InOrder(Flat(Optimized(s)), dep, StartAt(Optimized(s), s.procs[f], arg));
  }
}
