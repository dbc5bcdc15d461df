/** Replacing a window of instructions by a shorter one that has the same effect, in code whose
jumps are then moved: the run of the new code follows the run of the old one. */
module Replacement {
  import opened Machine
  import opened Layout
  import opened Discipline
  import opened Blocks

  // ----- replacing a window -----

  /** A window of w instructions at p that becomes v instructions. */
  datatype Window = Window(p: nat, w: nat, v: nat)

  ghost predicate GoodWindow(k: Window) {
    0 < k.v <= k.w
  }

  /** Where instruction number t is afterwards; numbers strictly inside the window have no place. */
  function Shift(k: Window, t: nat): nat {
    if t <= k.p || k.w < k.v || t < k.w - k.v then t else t - (k.w - k.v)
  }

  predicate Interior(k: Window, t: nat) {
    k.p < t < k.p + k.w
  }

  function Move(k: Window, i: Inst): Inst {
    if HasTarget(i) then SetTarget(i, Shift(k, i.target)) else i
  }

  function MoveAll(k: Window, c: Code): Code {
    seq(|c|, j requires 0 <= j < |c| => Move(k, c[j]))
  }

  function Replace(c: Code, k: Window, b: Code): Code
    requires k.p + k.w <= |c|
  {
    MoveAll(k, c[..k.p]) + MoveAll(k, b) + MoveAll(k, c[k.p + k.w..])
  }

  /** No jump leads strictly inside the window. */
  ghost predicate Unaimed(c: Code, k: Window) {
    forall j :: 0 <= j < |c| && HasTarget(c[j]) ==> !Interior(k, c[j].target)
  }

  /** The window holds a rewritable block and is replaced by a block with the same effect. */
  ghost predicate SameEffect(a: Code, b: Code) {
    && Straight(a) && Straight(b)
    && (forall i :: 0 <= i < |a| ==> Rewritten(a[i]))
    && (a[|a| - 1].If? <==> b[|b| - 1].If?)
    && (a[|a| - 1].If? ==> a[|a| - 1] == b[|b| - 1])
    && forall arg, scope, floor: nat | floor <= |arg| && RunBlock(a, arg, scope, floor).Ok? ::
         RunBlock(b, arg, scope, floor) == RunBlock(a, arg, scope, floor)
  }

  ghost predicate Replaces(c: Code, c': Code, k: Window, b: Code) {
    && GoodWindow(k) && k.p + k.w <= |c| && |b| == k.v
    && Unaimed(c, k)
    && SameEffect(c[k.p..k.p + k.w], b)
    && c' == Replace(c, k, b)
  }

  function ShiftState(k: Window, s: State): State {
    State(Shift(k, s.pc), s.arg, seq(|s.sys|, i requires 0 <= i < |s.sys| => Shift(k, s.sys[i])), s.svars,
          seq(|s.trys|, i requires 0 <= i < |s.trys| => s.trys[i].(handler := Shift(k, s.trys[i].handler))), s.err)
  }

  function ShiftConfig(k: Window, c: Config): Config {
    if c.Dead? then c else Live(ShiftState(k, c.st))
  }

  /** Nothing the machine holds points strictly inside the window, and the stack is not below the
      protected depth. */
  ghost predicate Outside(k: Window, s: State) {
    && !Interior(k, s.pc)
    && (forall i :: 0 <= i < |s.sys| ==> !Interior(k, s.sys[i]))
    && (forall i :: 0 <= i < |s.trys| ==> !Interior(k, s.trys[i].handler))
    && DepthsOk(s.trys, |s.arg|)
  }

  lemma ReplacedAt(c: Code, c': Code, k: Window, b: Code, pc: nat)
    requires Replaces(c, c', k, b) && pc < |c| && !(k.p <= pc < k.p + k.w)
    ensures Shift(k, pc) < |c'| && c'[Shift(k, pc)] == Move(k, c[pc])
  {
    hide SameEffect, Unaimed;
  }

  lemma ReplacedBlock(c: Code, c': Code, k: Window, b: Code)
    requires Replaces(c, c', k, b)
    ensures Stands(c', k.p, MoveAll(k, b)) && Stands(c, k.p, c[k.p..k.p + k.w])
  {
    hide SameEffect, Unaimed;
    assert c'[k.p..k.p + |b|] == MoveAll(k, b);
  }

  lemma ReplacedLength(c: Code, c': Code, k: Window, b: Code)
    requires Replaces(c, c', k, b)
    ensures |c'| == |c| - (k.w - k.v)
    ensures forall pc :: pc >= |c| ==> Shift(k, pc) >= |c'|
  {
    hide SameEffect, Unaimed;
  }

  // ----- a step outside the window -----

  lemma ShiftFields(k: Window, s: State)
    ensures Floor(ShiftState(k, s).trys) == Floor(s.trys)
    ensures |ShiftState(k, s).sys| == |s.sys| && |ShiftState(k, s).trys| == |s.trys|
  {}

  /** Moving a jump does not change what an instruction does to the stack and the scope. */
  lemma MovedEffect(k: Window, i: Inst, arg: seq<Value>, scope: Scope, floor: nat)
    requires Local(i)
    ensures Local(Move(k, i)) && ExecLocal(Move(k, i), arg, scope, floor) == ExecLocal(i, arg, scope, floor)
    ensures Move(k, i).If? == i.If? && (i.If? ==> Move(k, i).target == Shift(k, i.target))
  {
    hide ApplyPrim;
  }

  lemma ShiftRaise(k: Window, s: State, msg: string, kept: nat)
    requires Outside(k, s) && Floor(s.trys) <= kept
    ensures Raise(ShiftState(k, s), msg, kept) == ShiftConfig(k, Raise(s, msg, kept))
    ensures Raise(s, msg, kept).Live? ==> Outside(k, Raise(s, msg, kept).st)
  {
    if s.trys != [] {
      var r := Raise(s, msg, kept).st;
      var level := |r.sys|;
      assert ShiftState(k, s).sys[..level] == ShiftState(k, r).sys;
    }
  }

  lemma ShiftNext(k: Window, pc: nat)
    requires GoodWindow(k) && !(k.p <= pc < k.p + k.w)
    ensures Shift(k, pc + 1) == Shift(k, pc) + 1 && !Interior(k, pc + 1)
  {}

  lemma ShiftLocal(c: Code, c': Code, k: Window, b: Code, s: State)
    requires Replaces(c, c', k, b) && Outside(k, s) && |s.sys| > 0
    requires s.pc < |c| && !(k.p <= s.pc < k.p + k.w) && Local(c[s.pc])
    ensures LocalStep(Move(k, c[s.pc]), ShiftState(k, s)) == ShiftConfig(k, LocalStep(c[s.pc], s))
    ensures LocalStep(c[s.pc], s).Live? ==> Outside(k, LocalStep(c[s.pc], s).st)
  {
    hide Raise, ExecLocal, SameEffect, Shift, Replace, Interior;
    var i := c[s.pc];
    MovedEffect(k, i, s.arg, TopScope(s.svars), Floor(s.trys));
    LocalKeepsFloor(i, s.arg, TopScope(s.svars), Floor(s.trys));
    ShiftFields(k, s);
    ShiftNext(k, s.pc);
    match ExecLocal(i, s.arg, TopScope(s.svars), Floor(s.trys))
    case Ok(arg, scope, jump) =>
      DepthsMore(s.trys, |s.arg|, |arg|);
    case Fail(msg, kept) =>
      ShiftRaise(k, s, msg, kept);
  }

  lemma ShiftControl(c: Code, c': Code, k: Window, b: Code, s: State)
    requires Replaces(c, c', k, b) && Outside(k, s) && |s.sys| > 0
    requires s.pc < |c| && !(k.p <= s.pc < k.p + k.w)
    requires c[s.pc].Exec? || c[s.pc].Jmp? || c[s.pc].Ret? || c[s.pc].Function?
    ensures Step(c', Live(ShiftState(k, s))) == ShiftConfig(k, Step(c, Live(s)))
    ensures Step(c, Live(s)).Live? ==> Outside(k, Step(c, Live(s)).st)
  {
    hide Raise, SameEffect, Shift, Replace, Interior, LocalStep, TryStep, CatchStep, TryPopStep;
    ReplacedAt(c, c', k, b, s.pc);
    ShiftFields(k, s);
    ShiftNext(k, s.pc);
    var s' := ShiftState(k, s);
    match c[s.pc] {
      case Function(args, vars) =>
        ShiftRaise(k, s, LackMsg(s.arg, args, "Stack Underflow."), |s.arg|);
        if !Lacks(s.arg, Floor(s.trys), args) {
          DepthsMore(s.trys, |s.arg|, |s.arg| - args);
        }
      case Jmp(t) =>
      case Exec(t) =>
        ShiftRaise(k, s, "System Stack Overflow", |s.arg|);
        if |s.sys| < STACK_SIZE {
          var r := ExecStep(t, s).st;
          assert ShiftState(k, r).sys == s'.sys + [Shift(k, s.pc) + 1];
        }
      case Ret =>
        var r := RetStep(s).st;
        assert ShiftState(k, r).sys == s'.sys[..|s.sys| - 1];
    }
  }

  lemma ShiftTry(c: Code, c': Code, k: Window, b: Code, s: State)
    requires Replaces(c, c', k, b) && Outside(k, s) && |s.sys| > 0
    requires s.pc < |c| && !(k.p <= s.pc < k.p + k.w)
    requires c[s.pc].Try? || c[s.pc].TryPop? || c[s.pc].Catch?
    ensures Step(c', Live(ShiftState(k, s))) == ShiftConfig(k, Step(c, Live(s)))
    ensures Step(c, Live(s)).Live? ==> Outside(k, Step(c, Live(s)).st)
  {
    hide Raise, SameEffect, Shift, Replace, Interior, LocalStep, HeaderStep, RetStep, ExecStep;
    ReplacedAt(c, c', k, b, s.pc);
    ShiftFields(k, s);
    ShiftNext(k, s.pc);
    match c[s.pc] {
      case Try(h) =>
        assert Step(c', Live(ShiftState(k, s))) == TryStep(Shift(k, h), ShiftState(k, s));
        assert Step(c, Live(s)) == TryStep(h, s);
        ShiftTryStep(k, s, h);
      case TryPop =>
        ShiftRaise(k, s, "Stack protection fault.", |s.arg|);
        if s.trys != [] {
          var r := TryPopStep(s).st;
          assert ShiftState(k, r).trys == ShiftState(k, s).trys[..|s.trys| - 1];
          DepthsDrop(s.trys, |s.arg|, |s.arg|);
        }
      case Catch =>
        if s.trys != [] {
          var r := CatchStep(s).st;
          assert ShiftState(k, r).trys == ShiftState(k, s).trys[..|s.trys| - 1];
          DepthsDrop(s.trys, |s.arg|, |r.arg|);
        }
    }
  }

  lemma ShiftTryStep(k: Window, s: State, h: nat)
    requires GoodWindow(k) && Outside(k, s) && |s.sys| > 0 && !Interior(k, h) && !(k.p <= s.pc < k.p + k.w)
    ensures TryStep(Shift(k, h), ShiftState(k, s)) == ShiftConfig(k, TryStep(h, s))
    ensures TryStep(h, s).Live? ==> Outside(k, TryStep(h, s).st)
  {
    hide Raise, Shift, Interior;
    ShiftFields(k, s);
    ShiftNext(k, s.pc);
    if Lacks(s.arg, Floor(s.trys), 1) {
      ShiftRaise(k, s, LackMsg(s.arg, 1, "Stack Underflow."), |s.arg|);
    } else {
      var v, arg := Top(s.arg), Drop(s.arg, 1);
      if !v.Int? || v.n < 0 {
        ShiftRaise(k, s, "Argument is not a positive integer.", |arg|);
      } else if s.trys != [] && |arg| - Floor(s.trys) < v.n {
        ShiftRaise(k, s, "Stack protection fault.", |arg|);
      } else if v.n > |arg| {
        ShiftRaise(k, s, "Stack Underflow.", |arg|);
      } else {
        var rec := TryRec(|arg| - v.n, |s.sys|, h);
        var r := TryStep(h, s).st;
        assert ShiftState(k, r).trys == ShiftState(k, s).trys + [rec.(handler := Shift(k, h))];
        DepthsAdd(s.trys, |s.arg|, rec, |arg|);
      }
    }
  }

  /** One step outside the window is one step of the new code. */
  lemma ShiftStep(c: Code, c': Code, k: Window, b: Code, s: State)
    requires Replaces(c, c', k, b) && Outside(k, s) && |s.sys| > 0 && !(k.p <= s.pc < k.p + k.w)
    ensures Step(c', Live(ShiftState(k, s))) == ShiftConfig(k, Step(c, Live(s)))
    ensures Step(c, Live(s)).Live? ==> Outside(k, Step(c, Live(s)).st)
    ensures Suited(c, Live(s)) ==> Suited(c', Live(ShiftState(k, s)))
  {
    hide Raise, SameEffect, Replace, ExecLocal, Replaces, Outside, TryStep, CatchStep, TryPopStep, HeaderStep, RetStep,
        ExecStep;
    ReplacedLength(c, c', k, b);
    ShiftFields(k, s);
    if s.pc < |c| {
      ReplacedAt(c, c', k, b, s.pc);
      hide Shift;
      if Local(c[s.pc]) {
        ShiftLocal(c, c', k, b, s);
        MovedEffect(k, c[s.pc], s.arg, TopScope(s.svars), Floor(s.trys));
      } else if c[s.pc].Try? || c[s.pc].TryPop? || c[s.pc].Catch? {
        ShiftTry(c, c', k, b, s);
      } else {
        ShiftControl(c, c', k, b, s);
      }
    }
  }

  // ----- a run through the window -----

  lemma MovedBlock(k: Window, b: Code, arg: seq<Value>, scope: Scope, floor: nat)
    requires Straight(b)
    ensures |MoveAll(k, b)| == |b| && Straight(MoveAll(k, b))
    ensures RunBlock(MoveAll(k, b), arg, scope, floor) == RunBlock(b, arg, scope, floor)
    ensures MoveAll(k, b)[|b| - 1].If? == b[|b| - 1].If?
    ensures b[|b| - 1].If? ==> MoveAll(k, b)[|b| - 1].target == Shift(k, b[|b| - 1].target)
    decreases |b|
  {
    hide ExecLocal, Shift;
    forall i | 0 <= i < |b| ensures Local(MoveAll(k, b)[i]) && MoveAll(k, b)[i].If? == b[i].If? {
      MovedEffect(k, b[i], arg, scope, floor);
    }
    MovedEffect(k, b[0], arg, scope, floor);
    MovedEffect(k, b[|b| - 1], arg, scope, floor);
    if |b| > 1 {
      var e := ExecLocal(b[0], arg, scope, floor);
      assert MoveAll(k, b)[1..] == MoveAll(k, b[1..]);
      if e.Ok? {
        MovedBlock(k, b[1..], e.arg, e.scope, floor);
      }
    }
  }

  lemma {:induction false} BlockKeepsFloor(b: Code, arg: seq<Value>, scope: Scope, floor: nat)
    requires Straight(b) && floor <= |arg| && RunBlock(b, arg, scope, floor).Ok?
    ensures floor <= |RunBlock(b, arg, scope, floor).arg|
    decreases |b|
  {
    hide ExecLocal;
    LocalKeepsFloor(b[0], arg, scope, floor);
    if |b| > 1 {
      var e := ExecLocal(b[0], arg, scope, floor);
      BlockKeepsFloor(b[1..], e.arg, e.scope, floor);
    }
  }

  /** At the window, w steps of the old code are v steps of the new. */
  lemma {:induction false} WindowStep(c: Code, c': Code, k: Window, b: Code, s: State)
    requires Replaces(c, c', k, b) && Outside(k, s) && |s.sys| > 0 && s.pc == k.p
    requires GoodRun(c, Live(s))
    ensures Steps(c, Live(s), k.w).Live? && Outside(k, Steps(c, Live(s), k.w).st)
    ensures Steps(c', Live(ShiftState(k, s)), k.v) == ShiftConfig(k, Steps(c, Live(s), k.w))
    ensures SuitedFor(c', Live(ShiftState(k, s)), k.v)
  {
    hide GoodRun, RunBlock, Steps, Step, SuitedFor, After, Stands, Replace, Shift, Interior;
    var a := c[k.p..k.p + k.w];
    var s' := ShiftState(k, s);
    var scope, floor := TopScope(s.svars), Floor(s.trys);
    ReplacedBlock(c, c', k, b);
    ShiftFields(k, s);
    BlockRuns(c, s, a);
    BlockSteps(c, s, a);
    BlockKeepsFloor(a, s.arg, scope, floor);
    MovedBlock(k, b, s.arg, scope, floor);
    ShiftSelf(k);
    BlockSteps(c', s', MoveAll(k, b));
    var e := RunBlock(a, s.arg, scope, floor);
    var pc := Exit(a, k.p, e.jump);
    assert !Interior(k, pc) && Exit(MoveAll(k, b), k.p, e.jump) == Shift(k, pc) by {
      if a[|a| - 1].If? {
        assert c[k.p + k.w - 1] == a[|a| - 1];
      }
    }
    ShiftAfter(k, s, pc, e.arg, e.scope);
  }

  lemma ShiftSelf(k: Window)
    requires GoodWindow(k)
    ensures Shift(k, k.p) == k.p && Shift(k, k.p + k.w) == k.p + k.v && !Interior(k, k.p + k.w)
  {}

  lemma ShiftAfter(k: Window, s: State, pc: nat, arg: seq<Value>, scope: Scope)
    requires Outside(k, s) && !Interior(k, pc) && Floor(s.trys) <= |arg|
    ensures Outside(k, After(s, pc, arg, scope))
    ensures ShiftState(k, After(s, pc, arg, scope)) == After(ShiftState(k, s), Shift(k, pc), arg, scope)
  {
    DepthsMore(s.trys, |s.arg|, |arg|);
  }

  ghost predicate OutsideConfig(k: Window, x: Config) {
    x.Live? ==> Outside(k, x.st)
  }

  lemma OutsideWindow(c: Code, c': Code, k: Window, b: Code, s: State)
    requires Replaces(c, c', k, b) && Outside(k, s)
    ensures 0 < k.w && 0 < k.v && (s.pc == k.p || !(k.p <= s.pc < k.p + k.w))
  {}

  lemma OutsideLive(k: Window, x: Config)
    ensures OutsideConfig(k, x) <==> (x.Live? ==> Outside(k, x.st))
  {}

  /** One instruction outside the window. */
  lemma {:induction false} OneStride(c: Code, c': Code, k: Window, b: Code, s: State)
    requires Replaces(c, c', k, b) && Outside(k, s) && |s.sys| > 0 && GoodRun(c, Live(s)) && s.pc != k.p
    ensures OutsideConfig(k, Steps(c, Live(s), 1))
    ensures Steps(c', Live(ShiftState(k, s)), 1) == ShiftConfig(k, Steps(c, Live(s), 1))
    ensures SuitedFor(c', Live(ShiftState(k, s)), 1)
  {
    hide *;
    var x' := Live(ShiftState(k, s));
    OutsideWindow(c, c', k, b, s);
    OneStep(c, Live(s));
    OneStep(c', x');
    GoodNow(c, s);
    ShiftStep(c, c', k, b, s);
    OutsideLive(k, Step(c, Live(s)));
    NoSteps(c', x');
    SuitedNone(c', x');
    SuitedMore(c', x', 0);
  }

  lemma OneTime(n: nat)
    ensures n * 1 == n
  {}

  /** One instruction outside the window, or the whole window. */
  lemma {:induction false} Stride(c: Code, c': Code, k: Window, b: Code, s: State) returns (n: nat, m: nat)
    requires Replaces(c, c', k, b) && Outside(k, s) && |s.sys| > 0 && GoodRun(c, Live(s))
    ensures 0 < n <= k.w * m && 0 < m
    ensures OutsideConfig(k, Steps(c, Live(s), n))
    ensures Steps(c', Live(ShiftState(k, s)), m) == ShiftConfig(k, Steps(c, Live(s), n))
    ensures SuitedFor(c', Live(ShiftState(k, s)), m)
  {
    hide *;
    OutsideWindow(c, c', k, b, s);
    if s.pc == k.p {
      n, m := k.w, k.v;
      WindowStep(c, c', k, b, s);
      OutsideLive(k, Steps(c, Live(s), n));
      assert k.w * m >= k.w;
    } else {
      n, m := 1, 1;
      OneTime(k.w);
      OneStride(c, c', k, b, s);
    }
  }

  /** The new code keeps up with the old: after some number of steps it is where the old code is
      after n steps, or just past n when n falls inside the window. */
  lemma {:induction false} WindowRun(c: Code, c': Code, k: Window, b: Code, x: Config, n: nat) returns (n': nat, m: nat)
    requires Replaces(c, c', k, b) && OutsideConfig(k, x) && GoodRun(c, x)
    ensures n <= n' && Steps(c', ShiftConfig(k, x), m) == ShiftConfig(k, Steps(c, x, n'))
    ensures n' <= k.w * m || Terminal(Steps(c, x, n'))
    ensures SuitedFor(c', ShiftConfig(k, x), m)
    decreases n
  {
    hide Replaces, Outside, GoodRun, SuitedFor, Suited, Step, ShiftState;
    SuitedNone(c', ShiftConfig(k, x));
    if n == 0 {
      n', m := 0, 0;
    } else if Terminal(x) {
      n', m := n, 0;
      TerminalStays(c, x, n);
    } else {
      hide Steps;
      var i, j := Stride(c, c', k, b, x.st);
      var y := Steps(c, x, i);
      GoodRunFrom(c, x, i);
      var n1, m1 := WindowRun(c, c', k, b, y, if i < n then n - i else 0);
      n', m := i + n1, j + m1;
      StepsAdd(c, x, i, n1);
      StepsAdd(c', ShiftConfig(k, x), j, m1);
      SuitedJoin(c', ShiftConfig(k, x), j, m1);
      assert k.w * (j + m1) == k.w * j + k.w * m1;
    }
  }

  lemma ShiftTerminal(k: Window, x: Config)
    ensures Terminal(ShiftConfig(k, x)) <==> Terminal(x)
    ensures Terminal(x) ==> ResultOf(ShiftConfig(k, x)) == ResultOf(x)
  {}

  /** Replacing a window by a block with the same effect refines the program. */
  lemma ReplaceRefines(c: Code, c': Code, k: Window, b: Code, x: Config)
    requires Replaces(c, c', k, b) && OutsideConfig(k, x)
    ensures Refines(c, x, c', ShiftConfig(k, x))
  {
    hide Replaces, OutsideConfig, SuitedFor, Suited, Steps, Terminal, ShiftConfig;
    var x' := ShiftConfig(k, x);
    if GoodRun(c, x) {
      forall m: nat | !Terminal(Steps(c', x', m)) ensures Suited(c', Steps(c', x', m)) {
        ReplaceSuited(c, c', k, b, x, m);
      }
      forall r ensures Yields(c, x, r) <==> Yields(c', x', r) {
        if Yields(c, x, r) {
          ReplaceYields(c, c', k, b, x, r);
        }
        if Yields(c', x', r) {
          ReplaceReflects(c, c', k, b, x, r);
        }
      }
    }
  }

  lemma ReplaceSuited(c: Code, c': Code, k: Window, b: Code, x: Config, m: nat)
    requires Replaces(c, c', k, b) && OutsideConfig(k, x) && GoodRun(c, x)
    requires !Terminal(Steps(c', ShiftConfig(k, x), m))
    ensures Suited(c', Steps(c', ShiftConfig(k, x), m))
  {
    hide Replaces, OutsideConfig, SuitedFor, Suited, Steps, Terminal, ShiftConfig, GoodRun;
    var n', m' := LongRun(c, c', k, b, x, m);
    if m' <= m {
      EndedBefore(c', ShiftConfig(k, x), m', m);
    } else {
      SuitedAt(c', ShiftConfig(k, x), m', m);
    }
  }

  /** Run long enough to cover m steps of the new code. */
  lemma LongRun(c: Code, c': Code, k: Window, b: Code, x: Config, m: nat) returns (n': nat, m': nat)
    requires Replaces(c, c', k, b) && OutsideConfig(k, x) && GoodRun(c, x)
    ensures Steps(c', ShiftConfig(k, x), m') == ShiftConfig(k, Steps(c, x, n'))
    ensures m < m' || (Terminal(Steps(c', ShiftConfig(k, x), m')) && Terminal(Steps(c, x, n')))
    ensures SuitedFor(c', ShiftConfig(k, x), m')
  {
    hide OutsideConfig, SuitedFor, Suited, Steps, Terminal, ShiftConfig, GoodRun, SameEffect, Unaimed, Replace;
    n', m' := WindowRun(c, c', k, b, x, k.w * m + 1);
    ShiftTerminal(k, Steps(c, x, n'));
    if m' <= m {
      assert k.w * m' <= k.w * m;
    }
  }

  lemma EndedBefore(code: Code, x: Config, m: nat, n: nat)
    requires m <= n && Terminal(Steps(code, x, m))
    ensures Steps(code, x, n) == Steps(code, x, m)
  {
    StepsAdd(code, x, m, n - m);
    TerminalStays(code, Steps(code, x, m), n - m);
  }

  lemma ReplaceYields(c: Code, c': Code, k: Window, b: Code, x: Config, r: Result)
    requires Replaces(c, c', k, b) && OutsideConfig(k, x) && GoodRun(c, x) && Yields(c, x, r)
    ensures Yields(c', ShiftConfig(k, x), r)
  {
    hide Replaces, OutsideConfig, SuitedFor, Suited, Steps, Terminal, ShiftConfig, GoodRun, ResultOf;
    var e :| Ends(c, x, e) && ResultOf(e) == r;
    var n: nat :| Steps(c, x, n) == e;
    var n', m := WindowRun(c, c', k, b, x, n);
    EndedBefore(c, x, n, n');
    ShiftTerminal(k, e);
    assert Ends(c', ShiftConfig(k, x), ShiftConfig(k, e));
  }

  lemma ReplaceReflects(c: Code, c': Code, k: Window, b: Code, x: Config, r: Result)
    requires Replaces(c, c', k, b) && OutsideConfig(k, x) && GoodRun(c, x) && Yields(c', ShiftConfig(k, x), r)
    ensures Yields(c, x, r)
  {
    hide Replaces, OutsideConfig, SuitedFor, Suited, Steps, Terminal, ShiftConfig, GoodRun, ResultOf;
    var e :| Ends(c', ShiftConfig(k, x), e) && ResultOf(e) == r;
    var m: nat :| Steps(c', ShiftConfig(k, x), m) == e;
    var n', m' := LongRun(c, c', k, b, x, m);
    if m < m' {
      EndedBefore(c', ShiftConfig(k, x), m, m');
    } else {
      EndedBefore(c', ShiftConfig(k, x), m', m);
    }
    ShiftTerminal(k, Steps(c, x, n'));
    assert Ends(c, x, Steps(c, x, n'));
  }

  // ----- the nesting survives -----

  function NewDep(dep: seq<nat>, k: Window): seq<nat>
    requires k.p + k.w <= |dep| && k.w > 0
  {
    dep[..k.p] + seq(k.v, _ => dep[k.p]) + dep[k.p + k.w..]
  }

  lemma NewLength(dep: seq<nat>, k: Window)
    requires GoodWindow(k) && k.p + k.w <= |dep|
    ensures |NewDep(dep, k)| == |dep| - (k.w - k.v)
  {}

  lemma DepAt(dep: seq<nat>, k: Window, t: nat)
    requires GoodWindow(k) && k.p + k.w <= |dep| && t < |dep| && !Interior(k, t)
    ensures Shift(k, t) < |NewDep(dep, k)| && NewDep(dep, k)[Shift(k, t)] == dep[t]
  {}

  lemma LandsShifted(c: Code, c': Code, dep: seq<nat>, k: Window, b: Code, t: nat, d: int)
    requires Replaces(c, c', k, b) && |dep| == |c| && !Interior(k, t)
    requires Lands(c, dep, t, d)
    ensures |NewDep(dep, k)| == |c'| && Lands(c', NewDep(dep, k), Shift(k, t), d)
  {
    ReplacedLength(c, c', k, b);
    DepAt(dep, k, t);
    if t == k.p {
      ReplacedBlock(c, c', k, b);
      StandsAt(c', k.p, MoveAll(k, b), 0);
    } else {
      ReplacedAt(c, c', k, b, t);
    }
  }

  /** The whole window has the nesting of its first instruction, and so has what follows it. */
  lemma {:induction false} WindowDep(c: Code, dep: seq<nat>, k: Window, i: nat)
    requires k.p + k.w <= |c| && Typed(c, dep) && Straight(c[k.p..k.p + k.w]) && i < k.w
    ensures dep[k.p + i] == dep[k.p] && Lands(c, dep, k.p + i + 1, dep[k.p])
  {
    var a := c[k.p..k.p + k.w];
    assert a[i] == c[k.p + i];
    assert TypedAt(c, dep, k.p + i);
    if i > 0 {
      WindowDep(c, dep, k, i - 1);
    }
  }

  lemma TypedOutside(c: Code, c': Code, dep: seq<nat>, k: Window, b: Code, i: nat)
    requires Replaces(c, c', k, b) && Typed(c, dep) && i < |c| && !(k.p <= i < k.p + k.w)
    ensures |NewDep(dep, k)| == |c'| && Shift(k, i) < |c'| && TypedAt(c', NewDep(dep, k), Shift(k, i))
  {
    hide Replace, NewDep, SameEffect;
    assert TypedAt(c, dep, i);
    assert c[i].Try? ==> c[i].target < |c|;
    hide Lands;
    ReplacedAt(c, c', k, b, i);
    ReplacedLength(c, c', k, b);
    NewLength(dep, k);
    DepAt(dep, k, i);
    ShiftNext(k, i);
    MovedLanding(c, c', dep, k, b, i + 1);
    if HasTarget(c[i]) {
      assert !Interior(k, c[i].target);
      MovedLanding(c, c', dep, k, b, c[i].target);
    }
    hide Shift, Interior;
  }

  /** Where control could land before, it can land after; a header or a handler stays what it is. */
  lemma MovedLanding(c: Code, c': Code, dep: seq<nat>, k: Window, b: Code, t: nat)
    requires Replaces(c, c', k, b) && !Interior(k, t) && |dep| == |c|
    ensures |NewDep(dep, k)| == |c'|
    ensures forall d :: Lands(c, dep, t, d) ==> Lands(c', NewDep(dep, k), Shift(k, t), d)
    ensures t < |c| && c[t].Function? ==> Shift(k, t) < |c'| && c'[Shift(k, t)].Function?
    ensures t < |c| && c[t] == Catch ==> Shift(k, t) < |c'| && c'[Shift(k, t)] == Catch
  {
    NewLength(dep, k);
    ReplacedLength(c, c', k, b);
    assert c[k.p..k.p + k.w][0] == c[k.p];
    if t < |c| {
      if !c[t].Function? {
        LandsShifted(c, c', dep, k, b, t, dep[t]);
      }
      if t != k.p {
        ReplacedAt(c, c', k, b, t);
      }
    }
  }

  lemma TypedInside(c: Code, c': Code, dep: seq<nat>, k: Window, b: Code, i: nat)
    requires Replaces(c, c', k, b) && Typed(c, dep) && i < k.v
    ensures |NewDep(dep, k)| == |c'| && k.p + i < |c'| && TypedAt(c', NewDep(dep, k), k.p + i)
  {
    hide Replace, TypedAt;
    var dep' := NewDep(dep, k);
    var a := c[k.p..k.p + k.w];
    ReplacedLength(c, c', k, b);
    ReplacedBlock(c, c', k, b);
    StandsAt(c', k.p, MoveAll(k, b), i);
    if i + 1 < k.v {
      StandsAt(c', k.p, MoveAll(k, b), i + 1);
      assert Lands(c', dep', k.p + i + 1, dep[k.p]);
    } else {
      WindowDep(c, dep, k, k.w - 1);
      ShiftSelf(k);
      LandsShifted(c, c', dep, k, b, k.p + k.w, dep[k.p]);
      if b[i].If? {
        assert a[k.w - 1] == c[k.p + k.w - 1] == b[i];
        assert TypedAt(c, dep, k.p + k.w - 1);
        IfLands(c, dep, k.p + k.w - 1);
        LandsShifted(c, c', dep, k, b, b[i].target, dep[k.p]);
      }
    }
    LocalTyped(c', dep', k.p + i);
  }

  lemma IfLands(c: Code, dep: seq<nat>, i: nat)
    requires |dep| == |c| && i < |c| && TypedAt(c, dep, i) && c[i].If?
    ensures Lands(c, dep, c[i].target, dep[i])
  {}

  lemma LocalTyped(c: Code, dep: seq<nat>, i: nat)
    requires |dep| == |c| && i < |c| && Local(c[i]) && Lands(c, dep, i + 1, dep[i])
    requires c[i].If? ==> Lands(c, dep, c[i].target, dep[i])
    ensures TypedAt(c, dep, i)
  {}

  /** The new code is properly nested, with the same nesting. */
  lemma ReplaceTyped(c: Code, c': Code, dep: seq<nat>, k: Window, b: Code)
    requires Replaces(c, c', k, b) && Typed(c, dep)
    ensures Typed(c', NewDep(dep, k))
  {
    hide SameEffect, Replace, Unaimed, TypedAt, NewDep;
    ReplacedLength(c, c', k, b);
    NewLength(dep, k);
    forall j | 0 <= j < |c'| ensures TypedAt(c', NewDep(dep, k), j) {
      if k.p <= j < k.p + k.v {
        TypedInside(c, c', dep, k, b, j - k.p);
      } else {
        TypedOutside(c, c', dep, k, b, if j < k.p then j else j + (k.w - k.v));
      }
    }
  }
}
