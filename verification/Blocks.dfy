/** Runs on which the optimizer's rewrites are meant to be invisible, what it means for one program
to refine another on them, and straight-line blocks. */
module Blocks {
  import opened Machine
  import opened Layout
  import opened Discipline

  // ----- suitable runs -----

  /** The instructions the optimizer rewrites, which a suitable run must not let fail. */
  predicate Rewritten(i: Inst) {
    match i
    case PushInt(_) => true
    case PushStr(_) => true
    case PushSVar(_) => true
    case If(_) => true
    case Primitive(p) => p != Pop && p != Dup && p != Abort
    case _ => false
  }

  predicate SuitedLocal(i: Inst, arg: seq<Value>, scope: Scope, floor: nat)
    requires Local(i)
  {
    Rewritten(i) ==> ExecLocal(i, arg, scope, floor).Ok?
  }

  /** The next step does not fail in an instruction the optimizer may have rewritten, nor in a
      function header. Every other instruction may raise an error. */
  predicate Suited(code: Code, c: Config) {
    c.Live? && c.st.pc < |code| ==>
      && (Local(code[c.st.pc]) ==>
            SuitedLocal(code[c.st.pc], c.st.arg, TopScope(c.st.svars), Floor(c.st.trys)))
      && !HeaderFails(code, c.st)
  }

  /** The first n steps of the run from c are suited. */
  ghost predicate SuitedFor(code: Code, c: Config, n: nat) {
    forall k: nat :: k < n ==> Suited(code, Steps(code, c, k))
  }

  lemma SuitedAt(code: Code, c: Config, n: nat, k: nat)
    requires SuitedFor(code, c, n) && k < n
    ensures Suited(code, Steps(code, c, k))
  {}

  lemma SuitedNone(code: Code, c: Config)
    ensures SuitedFor(code, c, 0)
  {}

  lemma SuitedMore(code: Code, c: Config, n: nat)
    requires SuitedFor(code, c, n) && Suited(code, Steps(code, c, n))
    ensures SuitedFor(code, c, n + 1)
  {
    hide Suited, Steps;
  }

  lemma SuitedLess(code: Code, c: Config, n: nat)
    requires SuitedFor(code, c, n + 1)
    ensures SuitedFor(code, c, n)
  {
    hide Suited, Steps;
  }

  lemma {:induction false} SuitedJoin(code: Code, c: Config, m: nat, n: nat)
    requires SuitedFor(code, c, m) && SuitedFor(code, Steps(code, c, m), n)
    ensures SuitedFor(code, c, m + n)
    decreases n
  {
    hide SuitedFor, Suited, Steps;
    if n > 0 {
      var c' := Steps(code, c, m);
      SuitedLess(code, c', n - 1);
      SuitedJoin(code, c, m, n - 1);
      SuitedAt(code, c', n, n - 1);
      StepsAdd(code, c, m, n - 1);
      SuitedMore(code, c, m + n - 1);
    }
  }

  /** Every step of the run from c is suited. */
  ghost predicate GoodRun(code: Code, c: Config) {
    forall n: nat :: !Terminal(Steps(code, c, n)) ==> Suited(code, Steps(code, c, n))
  }

  lemma GoodRunFrom(code: Code, c: Config, n: nat)
    requires GoodRun(code, c)
    ensures GoodRun(code, Steps(code, c, n))
  {
    hide Suited, Step;
    forall m: nat | !Terminal(Steps(code, Steps(code, c, n), m)) ensures Suited(code, Steps(code, Steps(code, c, n), m)) {
      StepsAdd(code, c, n, m);
    }
  }

  /** What a caller sees of a finished run. */
  datatype Result = Finished(arg: seq<Value>) | Aborted(msg: string)

  function ResultOf(c: Config): Result
    requires Terminal(c)
  {
    if c.Dead? then Aborted(c.msg) else Finished(c.st.arg)
  }

  ghost predicate Yields(code: Code, c: Config, r: Result) {
    exists e :: Ends(code, c, e) && ResultOf(e) == r
  }

  /** On suitable runs the second program does what the first does: it ends exactly when the first
      ends, with the same stack or the same error, and its run is suitable too. */
  ghost predicate Refines(code: Code, c: Config, code': Code, c': Config) {
    GoodRun(code, c) ==>
      GoodRun(code', c') && forall r :: Yields(code, c, r) <==> Yields(code', c', r)
  }

  lemma RefinesTrans(code: Code, c: Config, code': Code, c': Config, code'': Code, c'': Config)
    requires Refines(code, c, code', c') && Refines(code', c', code'', c'')
    ensures Refines(code, c, code'', c'')
  {
    hide GoodRun, Yields;
  }

  // ----- blocks -----

  /** Straight-line code: local instructions, with a conditional jump only at the end. */
  predicate Straight(b: Code) {
    |b| > 0 && forall i :: 0 <= i < |b| ==> Local(b[i]) && (b[i].If? ==> i == |b| - 1)
  }

  /** The effect of a block. */
  function RunBlock(b: Code, arg: seq<Value>, scope: Scope, floor: nat): Effect
    requires Straight(b)
  {
    var e := ExecLocal(b[0], arg, scope, floor);
    if e.Fail? || |b| == 1 then e
    else RunBlock(b[1..], e.arg, e.scope, floor)
  }

  function Exit(b: Code, at: nat, jump: bool): nat
    requires Straight(b)
  {
    if jump && b[|b| - 1].If? then b[|b| - 1].target else at + |b|
  }

  function After(s: State, pc: nat, arg: seq<Value>, scope: Scope): State {
    s.(pc := pc, arg := arg, svars := SetTopScope(s.svars, scope))
  }

  lemma LocalAfter(code: Code, s: State, i: Inst)
    requires |s.sys| > 0 && s.pc < |code| && code[s.pc] == i && Local(i)
    ensures
      var e := ExecLocal(i, s.arg, TopScope(s.svars), Floor(s.trys));
      e.Ok? ==> Step(code, Live(s)) == Live(After(s, if e.jump && i.If? then i.target else s.pc + 1, e.arg, e.scope))
  {
    hide ExecLocal, Raise;
  }

  lemma TopAfter(s: State, pc: nat, arg: seq<Value>, scope: Scope, pc': nat, arg': seq<Value>, scope': Scope)
    ensures s.svars != [] ==> TopScope(After(s, pc, arg, scope).svars) == scope
    ensures After(After(s, pc, arg, scope), pc', arg', scope') == After(s, pc', arg', scope')
  {
    if s.svars != [] {
      assert (s.svars[..|s.svars| - 1] + [scope])[..|s.svars| - 1] == s.svars[..|s.svars| - 1];
    }
  }

  /** With no scope active no instruction can change one. */
  lemma NoScope(i: Inst, arg: seq<Value>, floor: nat)
    requires Local(i)
    ensures ExecLocal(i, arg, [], floor).Ok? ==> ExecLocal(i, arg, [], floor).scope == []
  {
    hide Wrap, Arith, StrOrder;
  }

  /** A block that runs well is |b| steps of the machine, each of them suited. */
  lemma {:induction false} BlockSteps(code: Code, s: State, b: Code)
    requires |s.sys| > 0 && Straight(b) && Stands(code, s.pc, b)
    requires RunBlock(b, s.arg, TopScope(s.svars), Floor(s.trys)).Ok?
    ensures
      var e := RunBlock(b, s.arg, TopScope(s.svars), Floor(s.trys));
      Steps(code, Live(s), |b|) == Live(After(s, Exit(b, s.pc, e.jump), e.arg, e.scope))
    ensures SuitedFor(code, Live(s), |b|)
    decreases |b|
  {
    hide Step, ExecLocal, Stands, After;
    StandsAt(code, s.pc, b, 0);
    LocalAfter(code, s, b[0]);
    var e := ExecLocal(b[0], s.arg, TopScope(s.svars), Floor(s.trys));
    NoSteps(code, Live(s));
    assert Suited(code, Live(s));
    if |b| == 1 {
      OneStep(code, Live(s));
    } else {
      assert !b[0].If? && Straight(b[1..]);
      var s1 := After(s, s.pc + 1, e.arg, e.scope);
      AfterFields(s, s.pc + 1, e.arg, e.scope);
      if s.svars == [] {
        NoScope(b[0], s.arg, Floor(s.trys));
      }
      assert b == [b[0]] + b[1..];
      StandsSplit(code, s.pc, [b[0]], b[1..]);
      BlockSteps(code, s1, b[1..]);
      var r := RunBlock(b[1..], e.arg, e.scope, Floor(s.trys));
      TopAfter(s, s.pc + 1, e.arg, e.scope, Exit(b, s.pc, r.jump), r.arg, r.scope);
      SuitedShift(code, s, s1, |b|);
    }
  }

  lemma AfterFields(s: State, pc: nat, arg: seq<Value>, scope: Scope)
    ensures
      var s1 := After(s, pc, arg, scope);
      && s1.pc == pc && s1.arg == arg && s1.sys == s.sys && s1.trys == s.trys
      && (s.svars != [] ==> TopScope(s1.svars) == scope) && (s.svars == [] ==> s1.svars == [])
  {}

  lemma SuitedShift(code: Code, s: State, s1: State, n: nat)
    requires n > 0 && Step(code, Live(s)) == Live(s1) && Suited(code, Live(s))
    requires SuitedFor(code, Live(s1), n - 1)
    ensures Steps(code, Live(s), n) == Steps(code, Live(s1), n - 1)
    ensures SuitedFor(code, Live(s), n)
  {
    hide Suited, Step;
    forall k: nat | k < n ensures Suited(code, Steps(code, Live(s), k)) {
      if k > 0 {
        assert Steps(code, Live(s), k) == Steps(code, Live(s1), k - 1);
      }
    }
  }

  /** On a suitable run a block of rewritable instructions runs well. */
  lemma {:induction false} BlockRuns(code: Code, s: State, b: Code)
    requires |s.sys| > 0 && Straight(b) && Stands(code, s.pc, b)
    requires forall i :: 0 <= i < |b| ==> Rewritten(b[i])
    requires GoodRun(code, Live(s))
    ensures RunBlock(b, s.arg, TopScope(s.svars), Floor(s.trys)).Ok?
    decreases |b|
  {
    hide Step, ExecLocal, Stands, After, GoodRun;
    StandsAt(code, s.pc, b, 0);
    LocalAfter(code, s, b[0]);
    GoodNow(code, s);
    var e := ExecLocal(b[0], s.arg, TopScope(s.svars), Floor(s.trys));
    if |b| > 1 {
      assert !b[0].If? && Straight(b[1..]);
      var s1 := After(s, s.pc + 1, e.arg, e.scope);
      AfterFields(s, s.pc + 1, e.arg, e.scope);
      if s.svars == [] {
        NoScope(b[0], s.arg, Floor(s.trys));
      }
      assert b == [b[0]] + b[1..];
      StandsSplit(code, s.pc, [b[0]], b[1..]);
      GoodRunFrom(code, Live(s), 1);
      OneStep(code, Live(s));
      BlockRuns(code, s1, b[1..]);
    }
  }

  lemma GoodNow(code: Code, s: State)
    requires GoodRun(code, Live(s)) && |s.sys| > 0
    ensures Suited(code, Live(s))
  {
    hide Suited, Step;
    assert Steps(code, Live(s), 0) == Live(s);
  }
}
