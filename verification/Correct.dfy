/** Laid-out code run by the machine means what the structured program means. */
module Correct {
  import opened Machine
  import opened Source
  import opened Layout

  /** Everything about the program and the activation that running a command relies on. */
  ghost predicate Ready(p: Prog, code: Code, entry: seq<nat>, w: Place, l: View, a: Act) {
    && Loaded(code, entry, p) && WellFormedProg(p)
    && GoodAct(a) && Floor(a.trys) <= |l.arg|
    && w.inLoop <= w.inProc <= |a.trys|
  }

  /** Running the code of a command: n is the number of steps until the command has ended, in the
      way Eval says. */
  lemma {:induction false} Sim(p: Prog, code: Code, entry: seq<nat>, c: Cmd, base: nat, w: Place, inLoop: bool, self: nat,
                               l: View, a: Act, fuel: nat) returns (n: nat)
    requires Ready(p, code, entry, w, l, a) && self < |p|
    requires WellFormed(c, inLoop, w.inLoop, self)
    requires Stands(code, base, Lay(c, base, w, entry))
    ensures Matches(code, At(base, l, a), n, base + Size(c, w.inLoop, w.inProc), w, a, fuel,
                    Eval(p, c, l, GuardOf(a), fuel))
    decreases fuel, c
  {
    hide Steps, Step, ExecLocal, StepState, Raise, Stands, Failed, Lay, Size, Eval, Untry;
    LeafUnfold(p, entry, base, w, l, GuardOf(a), fuel);
    match c
    case Skip =>
      NoSteps(code, At(base, l, a));
      n := 0;
    case Seq(c1, c2) =>
      n := SimSeq(p, code, entry, c1, c2, base, w, inLoop, self, l, a, fuel);
    case Word(i) =>
      StandsAt(code, base, [i], 0);
      WordCase(code, base, i, l, a, p, w, fuel);
      n := 1;
    case Call(f) =>
      n := SimCall(p, code, entry, f, base, w, self, l, a, fuel);
    case IfThen(t) =>
      n := SimIfThen(p, code, entry, t, base, w, inLoop, self, l, a, fuel);
    case IfElse(t, e) =>
      n := SimIfElse(p, code, entry, t, e, base, w, inLoop, self, l, a, fuel);
    case LoopUntil(b) =>
      n := SimUntil(p, code, entry, b, base, w, self, l, a, fuel);
    case LoopRepeat(b) =>
      n := SimRepeat(p, code, entry, b, base, w, self, l, a, fuel);
    case While =>
      n := SimWhile(p, code, base, w, l, a, fuel);
    case Break =>
      n := SimJump(p, code, entry, base, w.inLoop, w.brk, l, a);
    case Continue =>
      n := SimJump(p, code, entry, base, w.inLoop, w.cont, l, a);
    case Exit =>
      n := SimExit(code, base, w.inProc, l, a);
    case TryCatch(b, h) =>
      n := SimTry(p, code, entry, b, h, base, w, inLoop, self, l, a, fuel);
  }

  lemma {:induction false} SimSeq(p: Prog, code: Code, entry: seq<nat>, c1: Cmd, c2: Cmd, base: nat, w: Place,
      inLoop: bool, self: nat, l: View, a: Act, fuel: nat) returns (n: nat)
    requires Ready(p, code, entry, w, l, a) && self < |p|
    requires WellFormed(c1, inLoop, w.inLoop, self) && WellFormed(c2, inLoop, w.inLoop, self)
    requires Stands(code, base, Lay(Cmd.Seq(c1, c2), base, w, entry))
    ensures Matches(code, At(base, l, a), n, base + Size(Cmd.Seq(c1, c2), w.inLoop, w.inProc), w, a, fuel,
                    Eval(p, Cmd.Seq(c1, c2), l, GuardOf(a), fuel))
    decreases fuel, Cmd.Seq(c1, c2), 0
  {
    hide Steps, Step, ExecLocal, StepState, Raise, Stands, Failed, Lay, Size, Eval;
    SeqUnfold(entry, c1, c2, base, w);
    EvalSeq(p, c1, c2, l, GuardOf(a), fuel);
    var s1 := Size(c1, w.inLoop, w.inProc);
    StandsSplit(code, base, Lay(c1, base, w, entry), Lay(c2, base + s1, w, entry));
    n := Sim(p, code, entry, c1, base, w, inLoop, self, l, a, fuel);
    var r := Eval(p, c1, l, GuardOf(a), fuel);
    if r.Norm? {
      var m := Sim(p, code, entry, c2, base + s1, w, inLoop, self, r.l, a, fuel);
      Prepend(code, At(base, l, a), n, At(base + s1, r.l, a), m, base + Size(Cmd.Seq(c1, c2), w.inLoop, w.inProc), w, a, fuel,
              Eval(p, c2, r.l, GuardOf(a), fuel));
      n := n + m;
    }
  }

  lemma {:induction false} SeqUnfold(entry: seq<nat>, c1: Cmd, c2: Cmd, base: nat, w: Place)
    ensures Lay(Cmd.Seq(c1, c2), base, w, entry)
         == Lay(c1, base, w, entry) + Lay(c2, base + Size(c1, w.inLoop, w.inProc), w, entry)
    ensures Size(Cmd.Seq(c1, c2), w.inLoop, w.inProc) == Size(c1, w.inLoop, w.inProc) + Size(c2, w.inLoop, w.inProc)
  {}

  lemma EvalSeq(p: Prog, c1: Cmd, c2: Cmd, l: View, g: Guard, fuel: nat)
    ensures
      var r := Eval(p, c1, l, g, fuel);
      Eval(p, Cmd.Seq(c1, c2), l, g, fuel) == if r.Norm? then Eval(p, c2, r.l, g, fuel) else r
  {}

  lemma EvalIf(p: Prog, t: Cmd, e: Cmd, l: View, g: Guard, fuel: nat)
    ensures
      var r := Test(l, g);
      && Eval(p, IfThen(t), l, g, fuel)
         == (if r.NoTest? then Err(r.msg, l) else if r.value then Eval(p, t, r.l, g, fuel) else Norm(r.l))
      && Eval(p, IfElse(t, e), l, g, fuel)
         == (if r.NoTest? then Err(r.msg, l) else Eval(p, if r.value then t else e, r.l, g, fuel))
  {}

  lemma {:induction false} LeafUnfold(p: Prog, entry: seq<nat>, base: nat, w: Place, l: View, g: Guard, fuel: nat)
    ensures Lay(Skip, base, w, entry) == [] && Size(Skip, w.inLoop, w.inProc) == 0 && Eval(p, Skip, l, g, fuel) == Norm(l)
    ensures Lay(Break, base, w, entry) == TryPops(w.inLoop) + [Jmp(w.brk)] && Eval(p, Break, l, g, fuel) == Brk(l)
    ensures Lay(Continue, base, w, entry) == TryPops(w.inLoop) + [Jmp(w.cont)] && Eval(p, Continue, l, g, fuel) == Cont(l)
    ensures Lay(Exit, base, w, entry) == TryPops(w.inProc) + [Ret] && Eval(p, Exit, l, g, fuel) == Retn(l)
    ensures Lay(While, base, w, entry) == TryPops(w.inLoop) + [If(w.brk)]
    ensures Size(While, w.inLoop, w.inProc) == w.inLoop + 1
    ensures forall i :: Lay(Word(i), base, w, entry) == [i] && Size(Word(i), w.inLoop, w.inProc) == 1
    ensures forall f :: Size(Call(f), w.inLoop, w.inProc) == 1
  {}

  lemma SimExit(code: Code, base: nat, pops: nat, l: View, a: Act) returns (n: nat)
    requires GoodAct(a) && Floor(a.trys) <= |l.arg| && pops <= |a.trys|
    requires Stands(code, base, TryPops(pops) + [Ret])
    ensures n > 0 && Steps(code, At(base, l, a), n) == Returned(l, Untry(a, pops))
  {
    hide Steps, Step, Stands, Returned, StateAt;
    StandsSplit(code, base, TryPops(pops), [Ret]);
    StandsAt(code, base + pops, [Ret], 0);
    TryPopsCase(code, base, pops, l, a);
    StepsAdd(code, At(base, l, a), pops, 1);
    RetCase(code, base + pops, l, Untry(a, pops));
    n := pops + 1;
  }

  lemma RetCase(code: Code, pc: nat, l: View, a: Act)
    requires pc < |code| && code[pc] == Ret && GoodAct(a)
    ensures Steps(code, At(pc, l, a), 1) == Returned(l, a)
  {
    hide Steps, Raise, ExecLocal, LocalStep, HeaderStep, TryStep, CatchStep, TryPopStep, ExecStep;
    OneStep(code, At(pc, l, a));
    assert (a.below + [l.scope])[..|a.below|] == a.below;
  }

  lemma SimWhile(p: Prog, code: Code, base: nat, w: Place, l: View, a: Act, fuel: nat) returns (n: nat)
    requires GoodAct(a) && Floor(a.trys) <= |l.arg| && w.inLoop == 0
    requires Stands(code, base, TryPops(0) + [If(w.brk)])
    ensures Matches(code, At(base, l, a), n, base + 1, w, a, fuel, Eval(p, While, l, GuardOf(a), fuel))
  {
    hide Steps, Step, ExecLocal, StepState, Raise, Stands, Failed;
    StandsSplit(code, base, TryPops(0), [If(w.brk)]);
    StandsAt(code, base, [If(w.brk)], 0);
    TestCase(code, base, w.brk, l, a);
    assert Untry(a, 0) == a;
    n := 1;
  }

  /** What WHILE does n TRYs deep in its loop when its test is true: it goes on inside those TRYs
      with their records gone, so it is faithful to the program exactly when n is 0. */
  lemma {:induction false} WhileLeavesTrys(code: Code, base: nat, brk: nat, n: nat, l: View, a: Act)
    requires GoodAct(a) && Floor(a.trys) <= |l.arg| && n <= |a.trys|
    requires Stands(code, base, TryPops(n) + [If(brk)])
    requires |l.arg| - Floor(a.trys) >= 1 && !IsFalse(Top(l.arg))
    ensures Steps(code, At(base, l, a), n + 1) == At(base + n + 1, View(Drop(l.arg, 1), l.scope), Untry(a, n))
    ensures Untry(a, n) == a <==> n == 0
  {
    hide Steps, Step, Stands, StateAt;
    StandsSplit(code, base, TryPops(n), [If(brk)]);
    StandsAt(code, base + n, [If(brk)], 0);
    TryPopsCase(code, base, n, l, a);
    FloorBelow(a, n);
    TestCase(code, base + n, brk, l, Untry(a, n));
    StepsAdd(code, At(base, l, a), n, 1);
    assert n == 0 ==> a.trys[..|a.trys| - n] == a.trys;
  }

  /** So WHILE, when there is something to test, does what the program says if and only if no TRY stands
      between it and its loop, or the test is false. */
  lemma {:induction false} WhileMatchesIff(p: Prog, code: Code, base: nat, w: Place, l: View, a: Act, fuel: nat)
    requires GoodAct(a) && w.inLoop <= |a.trys| && |l.arg| - Floor(a.trys) >= 1
    requires Stands(code, base, TryPops(w.inLoop) + [If(w.brk)])
    ensures
      var n := w.inLoop + 1;
      Matches(code, At(base, l, a), n, base + n, w, a, fuel, Eval(p, While, l, GuardOf(a), fuel)) <==>
      w.inLoop == 0 || IsFalse(Top(l.arg))
  {
    hide Steps, Step, Stands;
    var n := w.inLoop;
    StandsSplit(code, base, TryPops(n), [If(w.brk)]);
    StandsAt(code, base + n, [If(w.brk)], 0);
    TryPopsCase(code, base, n, l, a);
    FloorBelow(a, n);
    TestCase(code, base + n, w.brk, l, Untry(a, n));
    StepsAdd(code, At(base, l, a), n, 1);
    assert n == 0 ==> a.trys[..|a.trys| - n] == a.trys;
    assert n > 0 ==> |Untry(a, n).trys| < |a.trys|;
  }

  lemma FloorBelow(a: Act, n: nat)
    requires GoodAct(a) && n <= |a.trys|
    ensures Floor(Untry(a, n).trys) <= Floor(a.trys)
  {}

  lemma SimJump(p: Prog, code: Code, entry: seq<nat>, base: nat, pops: nat, target: nat, l: View, a: Act) returns (n: nat)
    requires GoodAct(a) && Floor(a.trys) <= |l.arg| && pops <= |a.trys|
    requires Stands(code, base, TryPops(pops) + [Jmp(target)])
    ensures n > 0 && Steps(code, At(base, l, a), n) == At(target, l, Untry(a, pops))
  {
    hide Steps, Step, ExecLocal, StepState, Raise, Stands, Failed;
    StandsSplit(code, base, TryPops(pops), [Jmp(target)]);
    StandsAt(code, base + pops, [Jmp(target)], 0);
    TryPopsCase(code, base, pops, l, a);
    JumpCase(code, base + pops, target, l, Untry(a, pops));
    StepsAdd(code, At(base, l, a), pops, 1);
    n := pops + 1;
  }

  lemma {:induction false} IfUnfold(entry: seq<nat>, t: Cmd, e: Cmd, base: nat, w: Place)
    ensures Lay(IfThen(t), base, w, entry)
         == [If(base + 1 + Size(t, w.inLoop, w.inProc))] + Lay(t, base + 1, w, entry)
    ensures Size(IfThen(t), w.inLoop, w.inProc) == 1 + Size(t, w.inLoop, w.inProc)
    ensures Size(IfElse(t, e), w.inLoop, w.inProc) == 2 + Size(t, w.inLoop, w.inProc) + Size(e, w.inLoop, w.inProc)
    ensures Lay(IfElse(t, e), base, w, entry)
         == IfElseCode(base, Lay(t, base + 1, w, entry), Lay(e, base + 2 + Size(t, w.inLoop, w.inProc), w, entry))
  {}

  lemma {:induction false} SimIfThen(p: Prog, code: Code, entry: seq<nat>, t: Cmd, base: nat, w: Place, inLoop: bool,
      self: nat, l: View, a: Act, fuel: nat) returns (n: nat)
    requires Ready(p, code, entry, w, l, a) && self < |p|
    requires WellFormed(t, inLoop, w.inLoop, self)
    requires Stands(code, base, Lay(IfThen(t), base, w, entry))
    ensures Matches(code, At(base, l, a), n, base + Size(IfThen(t), w.inLoop, w.inProc), w, a, fuel,
                    Eval(p, IfThen(t), l, GuardOf(a), fuel))
    decreases fuel, IfThen(t), 0
  {
    hide Steps, Step, ExecLocal, StepState, Raise, Stands, Failed, Lay, Size, Eval;
    IfUnfold(entry, t, Skip, base, w);
    EvalIf(p, t, Skip, l, GuardOf(a), fuel);
    var end := base + 1 + Size(t, w.inLoop, w.inProc);
    StandsSplit(code, base, [If(end)], Lay(t, base + 1, w, entry));
    StandsAt(code, base, [If(end)], 0);
    TestCase(code, base, end, l, a);
    n := 1;
    var r := Test(l, GuardOf(a));
    if r.Tested? && r.value {
      var m := Sim(p, code, entry, t, base + 1, w, inLoop, self, r.l, a, fuel);
      Prepend(code, At(base, l, a), 1, At(base + 1, r.l, a), m, end, w, a, fuel,
              Eval(p, t, r.l, GuardOf(a), fuel));
      n := 1 + m;
    }
  }

  lemma IfElseParts(code: Code, base: nat, T: Code, E: Code)
    requires Stands(code, base, IfElseCode(base, T, E))
    ensures
      var els := base + 2 + |T|;
      && els <= |code|
      && code[base] == If(els)
      && Stands(code, base + 1, T)
      && code[els - 1] == Jmp(els + |E|)
      && Stands(code, els, E)
  {
    hide Stands;
    var els := base + 2 + |T|;
    var jmp := Jmp(els + |E|);
    StandsSplit(code, base, [If(els)] + T + [jmp], E);
    StandsSplit(code, base, [If(els)] + T, [jmp]);
    StandsSplit(code, base, [If(els)], T);
    StandsAt(code, base, [If(els)], 0);
    StandsAt(code, els - 1, [jmp], 0);
  }

  lemma {:induction false} SimIfElse(p: Prog, code: Code, entry: seq<nat>, t: Cmd, e: Cmd, base: nat, w: Place,
      inLoop: bool, self: nat, l: View, a: Act, fuel: nat) returns (n: nat)
    requires Ready(p, code, entry, w, l, a) && self < |p|
    requires WellFormed(t, inLoop, w.inLoop, self) && WellFormed(e, inLoop, w.inLoop, self)
    requires Stands(code, base, Lay(IfElse(t, e), base, w, entry))
    ensures Matches(code, At(base, l, a), n, base + Size(IfElse(t, e), w.inLoop, w.inProc), w, a, fuel,
                    Eval(p, IfElse(t, e), l, GuardOf(a), fuel))
    decreases fuel, IfElse(t, e), 0
  {
    hide Steps, Step, ExecLocal, StepState, Raise, Stands, Failed, Lay, Size, Eval, IfElseCode;
    IfUnfold(entry, t, e, base, w);
    EvalIf(p, t, e, l, GuardOf(a), fuel);
    var T := Lay(t, base + 1, w, entry);
    var els := base + 2 + |T|;
    var end := els + Size(e, w.inLoop, w.inProc);
    IfElseParts(code, base, T, Lay(e, els, w, entry));
    TestCase(code, base, els, l, a);
    n := 1;
    var r := Test(l, GuardOf(a));
    if r.Tested? && r.value {
      var o := Eval(p, t, r.l, GuardOf(a), fuel);
      var m := Sim(p, code, entry, t, base + 1, w, inLoop, self, r.l, a, fuel);
      m := JumpOver(code, At(base + 1, r.l, a), m, els - 1, end, w, a, fuel, o);
      Prepend(code, At(base, l, a), 1, At(base + 1, r.l, a), m, end, w, a, fuel, o);
      n := 1 + m;
    } else if r.Tested? {
      var m := Sim(p, code, entry, e, els, w, inLoop, self, r.l, a, fuel);
      Prepend(code, At(base, l, a), 1, At(els, r.l, a), m, end, w, a, fuel,
              Eval(p, e, r.l, GuardOf(a), fuel));
      n := 1 + m;
    }
  }

  /** A jump at the end of a piece takes a normal end from there to the jump's target. */
  lemma JumpOver(code: Code, from: Config, m: nat, at: nat, end: nat, w: Place, a: Act, fuel: nat, r: Outcome)
      returns (n: nat)
    requires GoodAct(a) && at < |code| && code[at] == Jmp(end)
    requires Matches(code, from, m, at, w, a, fuel, r)
    ensures Matches(code, from, n, end, w, a, fuel, r)
  {
    hide Steps, Step, Failed;
    n := m;
    if r.Norm? {
      JumpCase(code, at, end, r.l, a);
      StepsAdd(code, from, m, 1);
      n := m + 1;
    }
  }

  /** Going round a loop once more: n > 0 steps to its head pay for one unit of fuel. */
  lemma Again(code: Code, from: Config, n: nat, head: Config, m: nat, end: nat, w: Place, a: Act, fuel: nat, r: Outcome)
    requires |a.sys| > 0 && n > 0
    requires Steps(code, from, n) == head
    requires Matches(code, head, m, end, w, a, fuel, r)
    ensures Matches(code, from, n + m, end, w, a, fuel + 1, r)
  {
    hide Steps, Failed, Returned, Untry, StateAt, Alive, Faults;
    if r.Timeout? {
      AliveEarlier(code, from, n, head, fuel);
      AliveLess(code, from, n + fuel, fuel + 1);
    } else {
      StepsAdd(code, from, n, m);
    }
  }

  /** With no fuel left there is nothing to show but that the machine is still running. */
  lemma OutOfFuel(code: Code, pc: nat, l: View, a: Act)
    requires GoodAct(a)
    ensures Alive(code, At(pc, l, a), 0)
  {}

  lemma {:induction false} SimRepeat(p: Prog, code: Code, entry: seq<nat>, b: Cmd, base: nat, w: Place, self: nat,
                                     l: View, a: Act, fuel: nat) returns (n: nat)
    requires Ready(p, code, entry, w, l, a) && self < |p|
    requires WellFormed(b, true, 0, self)
    requires Stands(code, base, Lay(LoopRepeat(b), base, w, entry))
    ensures Matches(code, At(base, l, a), n, base + Size(LoopRepeat(b), w.inLoop, w.inProc), w, a, fuel,
                    Eval(p, LoopRepeat(b), l, GuardOf(a), fuel))
    decreases fuel, LoopRepeat(b), 0
  {
    hide Steps, Step, ExecLocal, StepState, Raise, Stands, Failed;
    hide Lay, Size, Eval;
    LoopUnfold(entry, b, base, w);
    EvalRepeat(p, b, l, GuardOf(a), fuel);
    var w' := InLoop(base, b, w);
    var bottom := w'.brk - 1;
    StandsSplit(code, base, Lay(b, base, w', entry), [Jmp(base)]);
    StandsAt(code, bottom, [Jmp(base)], 0);
    n := Sim(p, code, entry, b, base, w', true, self, l, a, fuel);
    assert Untry(a, 0) == a;
    var r := Eval(p, b, l, GuardOf(a), fuel);
    if r.Norm? {
      JumpCase(code, bottom, base, r.l, a);
      StepsAdd(code, At(base, l, a), n, 1);
      n := n + 1;
    }
    if r.Norm? || r.Cont? {
      if fuel == 0 {
        OutOfFuel(code, base, l, a);
      } else {
        var m := SimRepeat(p, code, entry, b, base, w, self, r.l, a, fuel - 1);
        Again(code, At(base, l, a), n, At(base, r.l, a), m, bottom + 1, w, a, fuel - 1,
              Eval(p, LoopRepeat(b), r.l, GuardOf(a), fuel - 1));
        n := n + m;
      }
    }
  }

  /** The place of the body of a loop whose head is at number base. */
  function InLoop(base: nat, b: Cmd, w: Place): Place {
    Place(base + Size(b, 0, w.inProc) + 1, base, 0, w.inProc)
  }

  lemma {:induction false} LoopUnfold(entry: seq<nat>, b: Cmd, base: nat, w: Place)
    ensures Lay(LoopRepeat(b), base, w, entry) == Lay(b, base, InLoop(base, b, w), entry) + [Jmp(base)]
    ensures Lay(LoopUntil(b), base, w, entry) == Lay(b, base, InLoop(base, b, w), entry) + [If(base)]
    ensures base + Size(LoopRepeat(b), w.inLoop, w.inProc) == InLoop(base, b, w).brk
    ensures base + Size(LoopUntil(b), w.inLoop, w.inProc) == InLoop(base, b, w).brk
  {}

  lemma EvalRepeat(p: Prog, b: Cmd, l: View, g: Guard, fuel: nat)
    ensures
      var r := Eval(p, b, l, g, fuel);
      Eval(p, LoopRepeat(b), l, g, fuel)
      == if r.Norm? || r.Cont? then
           (if fuel == 0 then Timeout else Eval(p, LoopRepeat(b), r.l, g, fuel - 1))
         else if r.Brk? then Norm(r.l) else r
  {}

  lemma EvalUntil(p: Prog, b: Cmd, l: View, g: Guard, fuel: nat)
    ensures
      var r := Eval(p, b, l, g, fuel);
      Eval(p, LoopUntil(b), l, g, fuel)
      == if r.Norm? then
           (var t := Test(r.l, g);
            if t.NoTest? then Err(t.msg, r.l)
            else if t.value then Norm(t.l)
            else if fuel == 0 then Timeout else Eval(p, LoopUntil(b), t.l, g, fuel - 1))
         else if r.Cont? then (if fuel == 0 then Timeout else Eval(p, LoopUntil(b), r.l, g, fuel - 1))
         else if r.Brk? then Norm(r.l) else r
  {}

  lemma {:induction false} SimUntil(p: Prog, code: Code, entry: seq<nat>, b: Cmd, base: nat, w: Place, self: nat,
                                    l: View, a: Act, fuel: nat) returns (n: nat)
    requires Ready(p, code, entry, w, l, a) && self < |p|
    requires WellFormed(b, true, 0, self)
    requires Stands(code, base, Lay(LoopUntil(b), base, w, entry))
    ensures Matches(code, At(base, l, a), n, base + Size(LoopUntil(b), w.inLoop, w.inProc), w, a, fuel,
                    Eval(p, LoopUntil(b), l, GuardOf(a), fuel))
    decreases fuel, LoopUntil(b), 1
  {
    hide Steps, Step, ExecLocal, StepState, Raise, Stands, Failed;
    hide Lay, Size, Eval;
    LoopUnfold(entry, b, base, w);
    EvalUntil(p, b, l, GuardOf(a), fuel);
    var w' := InLoop(base, b, w);
    var bottom := w'.brk - 1;
    StandsSplit(code, base, Lay(b, base, w', entry), [If(base)]);
    StandsAt(code, bottom, [If(base)], 0);
    n := Sim(p, code, entry, b, base, w', true, self, l, a, fuel);
    assert Untry(a, 0) == a;
    var r := Eval(p, b, l, GuardOf(a), fuel);
    if r.Norm? {
      TestCase(code, bottom, base, r.l, a);
      StepsAdd(code, At(base, l, a), n, 1);
      n := n + 1;
      var t := Test(r.l, GuardOf(a));
      if t.Tested? && !t.value {
        n := SimUntilAgain(p, code, entry, b, base, w, self, l, a, fuel, n, t.l);
      }
    } else if r.Cont? {
      n := SimUntilAgain(p, code, entry, b, base, w, self, l, a, fuel, n, r.l);
    }
  }

  lemma {:induction false} SimUntilAgain(p: Prog, code: Code, entry: seq<nat>, b: Cmd, base: nat, w: Place, self: nat,
                                         l: View, a: Act, fuel: nat, k: nat, l': View) returns (n: nat)
    requires Ready(p, code, entry, w, l', a) && self < |p|
    requires WellFormed(b, true, 0, self)
    requires Stands(code, base, Lay(LoopUntil(b), base, w, entry))
    requires k > 0 && Steps(code, At(base, l, a), k) == At(base, l', a)
    ensures Matches(code, At(base, l, a), n, base + Size(LoopUntil(b), w.inLoop, w.inProc), w, a, fuel,
                    if fuel == 0 then Timeout else Eval(p, LoopUntil(b), l', GuardOf(a), fuel - 1))
    decreases fuel, LoopUntil(b), 0
  {
    hide Steps, Step, ExecLocal, StepState, Raise, Stands, Failed;
    if fuel == 0 {
      OutOfFuel(code, base, l, a);
      n := 0;
    } else {
      var m := SimUntil(p, code, entry, b, base, w, self, l', a, fuel - 1);
      Again(code, At(base, l, a), k, At(base, l', a), m, base + Size(LoopUntil(b), w.inLoop, w.inProc), w, a, fuel - 1,
            Eval(p, LoopUntil(b), l', GuardOf(a), fuel - 1));
      n := k + m;
    }
  }

  // ----- TRY -----

  lemma {:induction false} StartTryCase(code: Code, pc: nat, handler: nat, l: View, a: Act)
    requires pc < |code| && code[pc] == Inst.Try(handler)
    requires GoodAct(a) && Floor(a.trys) <= |l.arg|
    ensures match StartTry(l, GuardOf(a))
            case NoTry(msg, l') => Steps(code, At(pc, l, a), 1) == Failed(msg, l', a) && Floor(a.trys) <= |l'.arg|
            case Tried(l', depth) =>
              var a' := a.(trys := a.trys + [TryRec(depth, |a.sys|, handler)]);
              && Steps(code, At(pc, l, a), 1) == At(pc + 1, l', a')
              && GoodAct(a') && Floor(a.trys) <= depth <= |l'.arg| && Floor(a'.trys) == depth
  {
    OneStep(code, At(pc, l, a));
    TryStepIs(pc, handler, l, a);
    assert Step(code, At(pc, l, a)) == TryStep(handler, StateAt(pc, l, a));
  }

  lemma TryStepIs(pc: nat, handler: nat, l: View, a: Act)
    requires GoodAct(a) && Floor(a.trys) <= |l.arg|
    ensures match StartTry(l, GuardOf(a))
            case NoTry(msg, l') => TryStep(handler, StateAt(pc, l, a)) == Failed(msg, l', a) && Floor(a.trys) <= |l'.arg|
            case Tried(l', depth) =>
              var a' := a.(trys := a.trys + [TryRec(depth, |a.sys|, handler)]);
              && TryStep(handler, StateAt(pc, l, a)) == At(pc + 1, l', a')
              && GoodAct(a') && Floor(a.trys) <= depth <= |l'.arg| && Floor(a'.trys) == depth
  {
    hide Failed, Raise;
    var t := StartTry(l, GuardOf(a));
    if t.NoTry? {
      RaiseIsFailed(pc, l, a, t.msg, |t.l.arg|);
      assert l.arg[..|t.l.arg|] == t.l.arg;
    }
  }

  /** A handler starts with the protected part of the stack and the message on top. */
  lemma CatchCase(code: Code, msg: string, l: View, a: Act, rec: TryRec)
    requires rec.handler < |code| && code[rec.handler] == Catch
    requires GoodAct(a) && rec.level == |a.sys| && rec.depth <= |l.arg|
    ensures Steps(code, Failed(msg, l, a.(trys := a.trys + [rec])), 1)
         == At(rec.handler + 1, View(Keep(l.arg, rec.depth) + [Str(msg)], l.scope), a)
  {
    var a' := a.(trys := a.trys + [rec]);
    OneStep(code, Failed(msg, l, a'));
    assert a.sys[..|a.sys|] == a.sys;
    assert (a.below + [l.scope])[..|a.sys|] == a.below + [l.scope];
    assert a'.trys[..|a.trys|] == a.trys;
    assert l.arg[..|l.arg|] == l.arg;
  }

  lemma UntryMore(a: Act, rec: TryRec, n: nat)
    requires n <= |a.trys|
    ensures Untry(a.(trys := a.trys + [rec]), n + 1) == Untry(a, n)
  {
    assert (a.trys + [rec])[..|a.trys| - n] == a.trys[..|a.trys| - n];
  }

  lemma {:induction false} TryUnfold(entry: seq<nat>, b: Cmd, h: Cmd, base: nat, w: Place)
    ensures Lay(TryCatch(b, h), base, w, entry)
         == TryCode(base, Lay(b, base + 1, Inside(w), entry),
                    Lay(h, base + 4 + Size(b, w.inLoop + 1, w.inProc + 1), w, entry))
    ensures Size(TryCatch(b, h), w.inLoop, w.inProc)
         == 4 + Size(b, w.inLoop + 1, w.inProc + 1) + Size(h, w.inLoop, w.inProc)
  {
    hide TryCode;
    TrySize(b, h, w.inLoop, w.inProc);
    hide Size;
  }

  lemma {:induction false} TrySize(b: Cmd, h: Cmd, inLoop: nat, inProc: nat)
    ensures Size(TryCatch(b, h), inLoop, inProc) == 4 + Size(b, inLoop + 1, inProc + 1) + Size(h, inLoop, inProc)
  {}

  lemma TryParts(code: Code, base: nat, B: Code, H: Code)
    requires Stands(code, base, TryCode(base, B, H))
    ensures
      var leave := base + 1 + |B|;
      && leave + 2 < |code|
      && code[base] == Inst.Try(leave + 2)
      && Stands(code, base + 1, B)
      && code[leave] == TryPop
      && code[leave + 1] == Jmp(leave + 3 + |H|)
      && code[leave + 2] == Catch
      && Stands(code, leave + 3, H)
  {
    hide Stands;
    var leave := base + 1 + |B|;
    var middle := [TryPop, Jmp(leave + 3 + |H|), Catch];
    StandsSplit(code, base, [Inst.Try(leave + 2)] + B + middle, H);
    StandsSplit(code, base, [Inst.Try(leave + 2)] + B, middle);
    StandsSplit(code, base, [Inst.Try(leave + 2)], B);
    StandsAt(code, base, [Inst.Try(leave + 2)], 0);
    StandsAt(code, leave, middle, 0);
    StandsAt(code, leave, middle, 1);
    StandsAt(code, leave, middle, 2);
  }

  lemma EvalTry(p: Prog, b: Cmd, h: Cmd, l: View, g: Guard, fuel: nat)
    ensures StartTry(l, g).NoTry? ==>
              Eval(p, TryCatch(b, h), l, g, fuel) == Err(StartTry(l, g).msg, StartTry(l, g).l)
    ensures StartTry(l, g).Tried? ==>
              Eval(p, TryCatch(b, h), l, g, fuel) == Handle(p, h, StartTry(l, g).depth, g, fuel,
                Eval(p, b, StartTry(l, g).l, Guard(StartTry(l, g).depth, true, g.depth), fuel))
  {}

  /** What a TRY block makes of the way its body ended. */
  function Handle(p: Prog, h: Cmd, depth: nat, g: Guard, fuel: nat, r: Outcome): Outcome {
    if r.Err? then Eval(p, h, View(Keep(r.l.arg, depth) + [Str(r.msg)], r.l.scope), g, fuel) else r
  }

  lemma {:induction false} SimTry(p: Prog, code: Code, entry: seq<nat>, b: Cmd, h: Cmd, base: nat, w: Place,
      inLoop: bool, self: nat, l: View, a: Act, fuel: nat) returns (n: nat)
    requires Ready(p, code, entry, w, l, a) && self < |p|
    requires WellFormed(TryCatch(b, h), inLoop, w.inLoop, self)
    requires Stands(code, base, Lay(TryCatch(b, h), base, w, entry))
    ensures Matches(code, At(base, l, a), n, base + Size(TryCatch(b, h), w.inLoop, w.inProc), w, a, fuel,
                    Eval(p, TryCatch(b, h), l, GuardOf(a), fuel))
    decreases fuel, TryCatch(b, h), 1
  {
    hide Steps, Step, ExecLocal, StepState, Raise, Stands, Failed, Lay, Size, Eval, TryCode;
    TryUnfold(entry, b, h, base, w);
    EvalTry(p, b, h, l, GuardOf(a), fuel);
    var B := Lay(b, base + 1, Inside(w), entry);
    var catch_ := base + 3 + |B|;
    TryParts(code, base, B, Lay(h, catch_ + 1, w, entry));
    StartTryCase(code, base, catch_, l, a);
    n := 1;
    var t := StartTry(l, GuardOf(a));
    if t.Tried? {
      n := SimTried(p, code, entry, b, h, base, w, inLoop, self, l, a, fuel, t.l, t.depth);
    }
  }

  lemma {:induction false} SimTried(p: Prog, code: Code, entry: seq<nat>, b: Cmd, h: Cmd, base: nat, w: Place,
      inLoop: bool, self: nat, l: View, a: Act, fuel: nat, l': View, depth: nat) returns (n: nat)
    requires Ready(p, code, entry, w, l, a) && self < |p|
    requires WellFormed(TryCatch(b, h), inLoop, w.inLoop, self)
    requires Stands(code, base, Lay(TryCatch(b, h), base, w, entry))
    requires StartTry(l, GuardOf(a)) == Tried(l', depth)
    requires
      var a' := a.(trys := a.trys + [TryRec(depth, |a.sys|, base + 3 + Size(b, w.inLoop + 1, w.inProc + 1))]);
      && Steps(code, At(base, l, a), 1) == At(base + 1, l', a')
      && GoodAct(a') && Floor(a.trys) <= depth <= |l'.arg| && Floor(a'.trys) == depth
    ensures Matches(code, At(base, l, a), n, base + Size(TryCatch(b, h), w.inLoop, w.inProc), w, a, fuel,
                    Eval(p, TryCatch(b, h), l, GuardOf(a), fuel))
    decreases fuel, TryCatch(b, h), 0
  {
    hide Steps, Step, ExecLocal, StepState, Raise, Stands, Failed, StartTry, Lay, Size, Eval, TryCode, Matches;
    TryUnfold(entry, b, h, base, w);
    EvalTry(p, b, h, l, GuardOf(a), fuel);
    var w' := Inside(w);
    var B := Lay(b, base + 1, w', entry);
    var leave := base + 1 + |B|;
    var H := Lay(h, leave + 3, w, entry);
    var end := leave + 3 + |H|;
    TryParts(code, base, B, H);
    var rec := TryRec(depth, |a.sys|, leave + 2);
    var a' := a.(trys := a.trys + [rec]);
    var from := At(base + 1, l', a');
    var r := Eval(p, b, l', GuardOf(a'), fuel);
    var m := Sim(p, code, entry, b, base + 1, w', inLoop, self, l', a', fuel);
    var o := Handle(p, h, depth, GuardOf(a), fuel, r);
    if r.Norm? {
      TriedWell(code, from, m, leave, end, w, a, rec, fuel, r);
      m := m + 2;
    } else if r.Err? {
      var l2 := View(Keep(r.l.arg, depth) + [Str(r.msg)], r.l.scope);
      TriedBadly(code, from, m, leave, w, a, rec, fuel, r);
      var k := Sim(p, code, entry, h, leave + 3, w, inLoop, self, l2, a, fuel);
      Prepend(code, from, m + 1, At(leave + 3, l2, a), k, end, w, a, fuel, o);
      m := m + 1 + k;
    } else {
      Escape(code, from, m, leave, end, w, a, rec, fuel, r);
    }
    Prepend(code, At(base, l, a), 1, from, m, end, w, a, fuel, o);
    n := 1 + m;
  }

  /** A body that ended normally: TRYPOP, and the jump over the handler. */
  lemma TriedWell(code: Code, from: Config, m: nat, leave: nat, end: nat, w: Place, a: Act, rec: TryRec, fuel: nat,
      r: Outcome)
    requires GoodAct(a) && rec.level == |a.sys| && Floor(a.trys) <= rec.depth && r.Norm?
    requires leave + 1 < |code| && code[leave] == TryPop && code[leave + 1] == Jmp(end)
    requires Matches(code, from, m, leave, Inside(w), a.(trys := a.trys + [rec]), fuel, r)
    ensures Matches(code, from, m + 2, end, w, a, fuel, r)
  {
    hide Steps;
    var a' := a.(trys := a.trys + [rec]);
    assert Floor(a'.trys) == rec.depth;
    LeaveTry(code, leave, end, r.l, a, rec);
    StepsAdd(code, from, m, 2);
  }

  /** A body that failed: CATCH has run, and the handler is next. */
  lemma TriedBadly(code: Code, from: Config, m: nat, leave: nat, w: Place, a: Act, rec: TryRec, fuel: nat, r: Outcome)
    requires GoodAct(a) && rec.level == |a.sys| && Floor(a.trys) <= rec.depth && r.Err?
    requires rec.handler < |code| && code[rec.handler] == Catch
    requires Matches(code, from, m, leave, Inside(w), a.(trys := a.trys + [rec]), fuel, r)
    ensures
      var l2 := View(Keep(r.l.arg, rec.depth) + [Str(r.msg)], r.l.scope);
      Steps(code, from, m + 1) == At(rec.handler + 1, l2, a) && Floor(a.trys) <= |l2.arg|
  {
    hide Steps, Failed;
    var a' := a.(trys := a.trys + [rec]);
    assert Floor(a'.trys) == rec.depth;
    CatchCase(code, r.msg, r.l, a, rec);
    StepsAdd(code, from, m, 1);
  }

  /** BREAK, CONTINUE and EXIT leave the TRY they are in as well as those around it. */
  lemma Escape(code: Code, from: Config, m: nat, leave: nat, end: nat, w: Place, a: Act, rec: TryRec, fuel: nat,
      r: Outcome)
    requires |a.sys| > 0 && w.inLoop <= w.inProc <= |a.trys| && Floor(a.trys) <= rec.depth
    requires !r.Norm? && !r.Err?
    requires Matches(code, from, m, leave, Inside(w), a.(trys := a.trys + [rec]), fuel, r)
    ensures Matches(code, from, m, end, w, a, fuel, r)
  {
    hide Steps, Step, Untry;
    UntryMore(a, rec, w.inLoop);
    UntryMore(a, rec, w.inProc);
  }

  lemma {:induction false} LeaveTry(code: Code, pc: nat, end: nat, l: View, a: Act, rec: TryRec)
    requires pc + 1 < |code| && code[pc] == TryPop && code[pc + 1] == Jmp(end)
    requires GoodAct(a) && rec.level == |a.sys| && Floor(a.trys) <= rec.depth <= |l.arg|
    ensures Steps(code, At(pc, l, a.(trys := a.trys + [rec])), 2) == At(end, l, a)
  {
    hide Steps;
    var a' := a.(trys := a.trys + [rec]);
    assert a'.trys[..|a.trys|] == a.trys;
    TryPopCase(code, pc, l, a');
    JumpCase(code, pc + 1, end, l, a);
    StepsAdd(code, At(pc, l, a'), 1, 1);
  }

  // ----- calls -----

  function Callee(a: Act, ret: nat, scope: Scope): Act {
    Act(a.sys + [ret], a.below + [scope], a.trys)
  }

  /** An error that leaves a callee is the same error in the caller, whose scope is intact. */
  lemma FailedThrough(msg: string, l: View, scope: Scope, ret: nat, a: Act)
    requires GoodAct(a)
    ensures Failed(msg, l, Callee(a, ret, scope)) == Failed(msg, View(l.arg, scope), a)
  {
    if a.trys != [] {
      var level := a.trys[|a.trys| - 1].level;
      assert (a.sys + [ret])[..level] == a.sys[..level];
      assert (a.below + [scope] + [l.scope])[..level] == (a.below + [scope])[..level];
    }
  }

  lemma {:induction false} CallOverflow(code: Code, pc: nat, target: nat, l: View, a: Act)
    requires pc < |code| && code[pc] == Inst.Exec(target)
    requires GoodAct(a) && |a.sys| >= STACK_SIZE
    ensures Steps(code, At(pc, l, a), 1) == Failed("System Stack Overflow", l, a)
  {
    OneStep(code, At(pc, l, a));
    RaiseIsFailed(pc, l, a, "System Stack Overflow", |l.arg|);
    assert l.arg[..|l.arg|] == l.arg;
  }

  /** EXEC and then the function header: two steps to the callee's first word, or an error. */
  lemma {:induction false} EnterCall(code: Code, pc: nat, target: nat, args: nat, vars: nat, l: View, a: Act)
    requires pc < |code| && code[pc] == Inst.Exec(target)
    requires target < |code| && code[target] == Function(args, vars)
    requires GoodAct(a) && |a.sys| < STACK_SIZE
    ensures
      if Lacks(l.arg, Floor(a.trys), args) then
        if a.trys == [] then Steps(code, At(pc, l, a), 2) == Failed(LackMsg(l.arg, args, "Stack Underflow."), l, a)
        else Faults(code, Steps(code, At(pc, l, a), 1))
      else
        Steps(code, At(pc, l, a), 2)
        == At(target + 1, View(Drop(l.arg, args), NewScope(l.arg, args, vars)), Callee(a, pc + 1, l.scope))
  {
    var s1 := State(target, l.arg, a.sys + [pc + 1], a.below + [l.scope], a.trys, "");
    assert Step(code, At(pc, l, a)) == Live(s1);
    StepsAdd(code, At(pc, l, a), 1, 1);
    OneStep(code, At(pc, l, a));
    OneStep(code, Live(s1));
    assert Step(code, Live(s1)) == HeaderStep(args, vars, s1);
  }

  lemma {:induction false} SimCall(p: Prog, code: Code, entry: seq<nat>, f: nat, base: nat, w: Place, self: nat,
                                   l: View, a: Act, fuel: nat) returns (n: nat)
    requires Ready(p, code, entry, w, l, a) && self < |p|
    requires f <= self
    requires Stands(code, base, Lay(Call(f), base, w, entry))
    ensures Matches(code, At(base, l, a), n, base + 1, w, a, fuel, Eval(p, Call(f), l, GuardOf(a), fuel))
    decreases fuel, Call(f), 1
  {
    hide *;
    ReadyParts(p, code, entry, w, l, a);
    CallPlaced(code, base, w, entry, f);
    if |a.sys| >= STACK_SIZE {
      n := CallOverflows(p, code, base, entry[f], f, w, l, a, fuel);
    } else if Lacks(l.arg, Floor(a.trys), p[f].args) {
      EntryPlaced(p, code, entry, f);
      n := CallLacks(p, code, base, entry[f], f, w, l, a, fuel);
    } else if fuel == 0 {
      n := CallUnfuelled(p, code, base, f, w, l, a);
    } else {
      EntryPlaced(p, code, entry, f);
      EnterCall(code, base, entry[f], p[f].args, p[f].vars, l, a);
      n := SimBody(p, code, entry, f, base, w, self, l, a, fuel);
    }
  }

  lemma ReadyParts(p: Prog, code: Code, entry: seq<nat>, w: Place, l: View, a: Act)
    requires Ready(p, code, entry, w, l, a)
    ensures GoodAct(a) && |a.sys| > 0 && Floor(a.trys) <= |l.arg| && |entry| == |p| && Loaded(code, entry, p)
  {}

  /** Where a call stands there is an EXEC. */
  lemma CallPlaced(code: Code, base: nat, w: Place, entry: seq<nat>, f: nat)
    requires f < |entry| && Stands(code, base, Lay(Call(f), base, w, entry))
    ensures base < |code| && code[base] == Inst.Exec(entry[f])
  {
    StandsAt(code, base, [Inst.Exec(entry[f])], 0);
  }

  /** Where a procedure is entered stand its header, its body and its RET. */
  lemma EntryPlaced(p: Prog, code: Code, entry: seq<nat>, f: nat)
    requires Loaded(code, entry, p) && f < |p|
    ensures f < |entry|
    ensures
      var end := entry[f] + 1 + Size(p[f].body, 0, 0);
      && end < |code|
      && code[entry[f]] == Function(p[f].args, p[f].vars)
      && Stands(code, entry[f] + 1, Lay(p[f].body, entry[f] + 1, Place(0, 0, 0, 0), entry))
      && code[end] == Ret
  {
    hide Lay, Size, Stands;
    ProcParts(code, p[f], entry[f], entry);
  }

  /** The return stack is full. */
  lemma {:induction false} CallOverflows(p: Prog, code: Code, base: nat, target: nat, f: nat, w: Place, l: View, a: Act,
      fuel: nat) returns (n: nat)
    requires base < |code| && code[base] == Inst.Exec(target) && f < |p|
    requires GoodAct(a) && Floor(a.trys) <= |l.arg| && |a.sys| >= STACK_SIZE
    ensures |a.sys| > 0 && Matches(code, At(base, l, a), n, base + 1, w, a, fuel, Eval(p, Call(f), l, GuardOf(a), fuel))
  {
    hide Steps, Step, Failed;
    CallOverflow(code, base, target, l, a);
    n := 1;
  }

  /** The header finds too few arguments. */
  lemma {:induction false} CallLacks(p: Prog, code: Code, base: nat, target: nat, f: nat, w: Place, l: View, a: Act,
      fuel: nat) returns (n: nat)
    requires base < |code| && code[base] == Inst.Exec(target) && f < |p|
    requires target < |code| && code[target] == Function(p[f].args, p[f].vars)
    requires GoodAct(a) && Floor(a.trys) <= |l.arg| && |a.sys| < STACK_SIZE && Lacks(l.arg, Floor(a.trys), p[f].args)
    ensures |a.sys| > 0 && Matches(code, At(base, l, a), n, base + 1, w, a, fuel, Eval(p, Call(f), l, GuardOf(a), fuel))
  {
    hide Steps, Step, Failed, Layout.Faults, Lacks;
    EnterCall(code, base, target, p[f].args, p[f].vars, l, a);
    n := if a.trys == [] then 2 else 1;
  }

  /** There is no fuel for the callee. */
  lemma {:induction false} CallUnfuelled(p: Prog, code: Code, base: nat, f: nat, w: Place, l: View, a: Act) returns (n: nat)
    requires f < |p| && GoodAct(a) && |a.sys| < STACK_SIZE && !Lacks(l.arg, Floor(a.trys), p[f].args)
    ensures |a.sys| > 0 && Matches(code, At(base, l, a), n, base + 1, w, a, 0, Eval(p, Call(f), l, GuardOf(a), 0))
  {
    hide Steps, Step, Failed, Lacks;
    OutOfFuel(code, base, l, a);
    n := 0;
  }

  lemma {:induction false} EvalCall(p: Prog, f: nat, l: View, g: Guard, fuel: nat)
    requires f < |p| && g.depth < STACK_SIZE && fuel > 0 && !Lacks(l.arg, g.floor, p[f].args)
    ensures
      var callee := View(Drop(l.arg, p[f].args), NewScope(l.arg, p[f].args, p[f].vars));
      var r := Eval(p, p[f].body, callee, g.(depth := g.depth + 1), fuel - 1);
      Eval(p, Call(f), l, g, fuel)
      == if r.Norm? || r.Retn? then Norm(View(r.l.arg, l.scope))
         else if r.Err? then Err(r.msg, View(r.l.arg, l.scope))
         else if r.Timeout? then Timeout else Fault
  {}

  lemma {:induction false} SimBody(p: Prog, code: Code, entry: seq<nat>, f: nat, base: nat, w: Place, self: nat,
                                   l: View, a: Act, fuel: nat) returns (n: nat)
    requires Ready(p, code, entry, w, l, a) && self < |p|
    requires f <= self && fuel > 0 && |a.sys| < STACK_SIZE && !Lacks(l.arg, Floor(a.trys), p[f].args)
    requires Stands(code, entry[f] + 1, Lay(p[f].body, entry[f] + 1, Place(0, 0, 0, 0), entry))
    requires
      var end := entry[f] + 1 + Size(p[f].body, 0, 0);
      end < |code| && code[end] == Ret
    requires
      var l1 := View(Drop(l.arg, p[f].args), NewScope(l.arg, p[f].args, p[f].vars));
      Steps(code, At(base, l, a), 2) == At(entry[f] + 1, l1, Callee(a, base + 1, l.scope))
    ensures Matches(code, At(base, l, a), n, base + 1, w, a, fuel, Eval(p, Call(f), l, GuardOf(a), fuel))
    decreases fuel, Call(f), 0
  {
    hide Steps, Step, ExecLocal, StepState, Raise, Stands, Failed;
    hide Lay, Size, Eval;
    EvalCall(p, f, l, GuardOf(a), fuel);
    var pr := p[f];
    var start := At(base, l, a);
    var l1 := View(Drop(l.arg, pr.args), NewScope(l.arg, pr.args, pr.vars));
    var a1 := Callee(a, base + 1, l.scope);
    var w1 := Place(0, 0, 0, 0);
    var end := entry[f] + 1 + Size(pr.body, 0, 0);
    var m := Sim(p, code, entry, pr.body, entry[f] + 1, w1, false, f, l1, a1, fuel - 1);
    var r := Eval(p, pr.body, l1, GuardOf(a1), fuel - 1);
    NoStrays(p, pr.body, false, 0, f, l1, GuardOf(a1), fuel - 1);
    StepsAdd(code, start, 2, m);
    n := 2 + m;
    assert a1.trys[..|a1.trys|] == a1.trys;
    assert a1.sys[..|a.sys|] == a.sys;
    match r {
      case Norm(l2) =>
        StepsAdd(code, start, n, 1);
        RetCase(code, end, l2, a1);
        n := n + 1;
      case Retn(l2) =>
      case Err(msg, l2) =>
        FailedThrough(msg, l2, l.scope, base + 1, a);
      case Timeout =>
        AliveEarlier(code, start, 2, At(entry[f] + 1, l1, a1), fuel - 1);
        AliveLess(code, start, 2 + (fuel - 1), fuel);
      case _ =>
    }
  }

  // ----- whole programs -----

  /** Some procedure takes arguments, so that a call can find too few. */
  ghost predicate TakesArguments(p: Prog) {
    exists f :: 0 <= f < |p| && p[f].args > 0
  }

  ghost predicate Tame(p: Prog, r: Outcome, inLoop: bool, floor: nat) {
    && (r.Brk? || r.Cont? ==> inLoop)
    && (r.Fault? ==> TakesArguments(p))
    && (!r.Fault? && !r.Timeout? ==> floor <= |r.l.arg|)
  }

  /** A well-formed command ends with BREAK or CONTINUE only inside a loop, and Fault needs a
      procedure that takes arguments. */
  lemma {:induction false} NoStrays(p: Prog, c: Cmd, inLoop: bool, trys: nat, self: nat, l: View, g: Guard, fuel: nat)
    requires WellFormedProg(p) && self < |p| && WellFormed(c, inLoop, trys, self)
    requires g.floor <= |l.arg| && (g.guarded || g.floor == 0)
    ensures Tame(p, Eval(p, c, l, g, fuel), inLoop, g.floor)
    decreases fuel, c
  {
    hide TakesArguments, Eval;
    match c
    case Seq(a, b) =>
      EvalSeq(p, a, b, l, g, fuel);
      NoStrays(p, a, inLoop, trys, self, l, g, fuel);
      var r := Eval(p, a, l, g, fuel);
      if r.Norm? {
        NoStrays(p, b, inLoop, trys, self, r.l, g, fuel);
      }
    case Call(f) =>
      NoStraysCall(p, f, l, g, fuel);
    case IfThen(t) =>
      var r := Test(l, g);
      EvalIf(p, t, Skip, l, g, fuel);
      if r.Tested? && r.value {
        NoStrays(p, t, inLoop, trys, self, r.l, g, fuel);
      }
    case IfElse(t, e) =>
      var r := Test(l, g);
      EvalIf(p, t, e, l, g, fuel);
      if r.Tested? {
        NoStrays(p, if r.value then t else e, inLoop, trys, self, r.l, g, fuel);
      }
    case LoopUntil(b) =>
      NoStrays(p, b, true, 0, self, l, g, fuel);
      EvalUntil(p, b, l, g, fuel);
      var r := Eval(p, b, l, g, fuel);
      if fuel > 0 && r.Norm? && Test(r.l, g).Tested? {
        NoStrays(p, c, inLoop, trys, self, Test(r.l, g).l, g, fuel - 1);
      } else if fuel > 0 && r.Cont? {
        NoStrays(p, c, inLoop, trys, self, r.l, g, fuel - 1);
      }
    case LoopRepeat(b) =>
      NoStrays(p, b, true, 0, self, l, g, fuel);
      EvalRepeat(p, b, l, g, fuel);
      var r := Eval(p, b, l, g, fuel);
      if fuel > 0 && (r.Norm? || r.Cont?) {
        NoStrays(p, c, inLoop, trys, self, r.l, g, fuel - 1);
      }
    case TryCatch(b, h) =>
      EvalTry(p, b, h, l, g, fuel);
      var t := StartTry(l, g);
      if t.Tried? {
        var g' := Guard(t.depth, true, g.depth);
        NoStrays(p, b, inLoop, trys + 1, self, t.l, g', fuel);
        var r := Eval(p, b, t.l, g', fuel);
        if r.Err? {
          NoStrays(p, h, inLoop, trys, self, View(Keep(r.l.arg, t.depth) + [Str(r.msg)], r.l.scope), g, fuel);
        }
      }
    case _ =>
      NoStraysLeaf(p, c, inLoop, trys, self, l, g, fuel);
  }

  lemma NoStraysLeaf(p: Prog, c: Cmd, inLoop: bool, trys: nat, self: nat, l: View, g: Guard, fuel: nat)
    requires WellFormed(c, inLoop, trys, self) && g.floor <= |l.arg|
    requires c.Skip? || c.Word? || c.While? || c.Break? || c.Continue? || c.Exit?
    ensures Tame(p, Eval(p, c, l, g, fuel), inLoop, g.floor)
  {
    hide ExecLocal, TakesArguments;
    if c.Word? {
      LocalKeepsFloor(c.i, l.arg, l.scope, g.floor);
    }
  }

  lemma {:induction false} NoStraysCall(p: Prog, f: nat, l: View, g: Guard, fuel: nat)
    requires WellFormedProg(p) && f < |p| && g.floor <= |l.arg| && (g.guarded || g.floor == 0)
    ensures Tame(p, Eval(p, Call(f), l, g, fuel), false, g.floor)
    decreases fuel, Call(f), 0
  {
    if Lacks(l.arg, g.floor, p[f].args) {
      assert p[f].args > 0;
    } else if g.depth < STACK_SIZE && fuel > 0 {
      EvalCall(p, f, l, g, fuel);
      NoStrays(p, p[f].body, false, 0, f, View(Drop(l.arg, p[f].args), NewScope(l.arg, p[f].args, p[f].vars)),
               g.(depth := g.depth + 1), fuel - 1);
    }
  }

  /** The interpreter about to run procedure f on an initial stack. */
  function Start(entry: seq<nat>, f: nat, arg: seq<Value>): Config
    requires f < |entry|
  {
    Live(State(entry[f], arg, [0], [], [], ""))
  }

  /** The configuration a finished program leaves. */
  function Finished(arg: seq<Value>): Config {
    Live(State(0, arg, [], [], [], ""))
  }

  /** At some moment of the run a function header fails inside a TRY. */
  ghost predicate FaultsEver(code: Code, start: Config) {
    exists n: nat :: Faults(code, Steps(code, start, n))
  }

  /** What the machine does with a program that ends, for its structured meaning, as r. */
  ghost predicate Agrees(code: Code, start: Config, r: Outcome, fuel: nat) {
    match r
    case Norm(l) => Ends(code, start, Finished(l.arg))
    case Retn(l) => Ends(code, start, Finished(l.arg))
    case Err(msg, _) => Ends(code, start, Dead(msg))
    case Timeout => Alive(code, start, fuel)
    case Fault => FaultsEver(code, start)
    case _ => false
  }

  /** The header of the main procedure: one step to its first word, or the end of the program. */
  lemma {:induction false} EnterMain(code: Code, at: nat, args: nat, vars: nat, arg: seq<Value>)
    requires at < |code| && code[at] == Function(args, vars)
    ensures
      var start := Live(State(at, arg, [0], [], [], ""));
      if Lacks(arg, 0, args) then Steps(code, start, 1) == Dead(LackMsg(arg, args, "Stack Underflow."))
      else Steps(code, start, 1) == At(at + 1, View(Drop(arg, args), NewScope(arg, args, vars)), Act([0], [], []))
  {
    var s := State(at, arg, [0], [], [], "");
    OneStep(code, Live(s));
    assert Step(code, Live(s)) == HeaderStep(args, vars, s);
  }

  /** Compiler correctness: laid-out code computes what the structured program means. */
  lemma ProgramAgrees(p: Prog, code: Code, entry: seq<nat>, arg: seq<Value>, fuel: nat)
    requires Loaded(code, entry, p) && WellFormedProg(p) && |p| > 0
    ensures Agrees(code, Start(entry, |p| - 1, arg), RunProg(p, arg, fuel), fuel)
  {
    hide Steps, Step, StepState, Stands, Eval, Lay, Size;
    var f := |p| - 1;
    var pr := p[f];
    var at := entry[f];
    var start := Start(entry, f, arg);
    ProcParts(code, pr, at, entry);
    EnterMain(code, at, pr.args, pr.vars, arg);
    if !Lacks(arg, 0, pr.args) {
      var l := View(Drop(arg, pr.args), NewScope(arg, pr.args, pr.vars));
      var a := Act([0], [], []);
      var w := Place(0, 0, 0, 0);
      var end := at + 1 + Size(pr.body, 0, 0);
      var r := Eval(p, pr.body, l, GuardOf(a), fuel);
      var n := Sim(p, code, entry, pr.body, at + 1, w, false, f, l, a, fuel);
      NoStrays(p, pr.body, false, 0, f, l, GuardOf(a), fuel);
      Prepend(code, start, 1, At(at + 1, l, a), n, end, w, a, fuel, r);
      assert Untry(a, 0) == a;
      if r.Norm? {
        StepsAdd(code, start, 1 + n, 1);
        RetCase(code, end, r.l, a);
      }
    }
  }

  lemma ProcParts(code: Code, pr: Proc, at: nat, entry: seq<nat>)
    requires Stands(code, at, LayProc(pr, at, entry))
    ensures
      var end := at + 1 + Size(pr.body, 0, 0);
      && end < |code|
      && code[at] == Function(pr.args, pr.vars)
      && Stands(code, at + 1, Lay(pr.body, at + 1, Place(0, 0, 0, 0), entry))
      && code[end] == Ret
  {
    hide Stands, Lay, Size;
    var body := Lay(pr.body, at + 1, Place(0, 0, 0, 0), entry);
    StandsSplit(code, at, [Function(pr.args, pr.vars)] + body, [Ret]);
    StandsSplit(code, at, [Function(pr.args, pr.vars)], body);
    StandsAt(code, at, [Function(pr.args, pr.vars)], 0);
    StandsAt(code, at + 1 + |body|, [Ret], 0);
  }

  /** The other direction: a machine run that ends is one the structured meaning accounts for,
      with the same result; so the program diverges exactly when the machine does. */
  lemma MachineAgrees(p: Prog, code: Code, entry: seq<nat>, arg: seq<Value>, r: Config) returns (fuel: nat)
    requires Loaded(code, entry, p) && WellFormedProg(p) && |p| > 0
    requires Ends(code, Start(entry, |p| - 1, arg), r)
    ensures match RunProg(p, arg, fuel)
            case Norm(l) => r == Finished(l.arg)
            case Retn(l) => r == Finished(l.arg)
            case Err(msg, _) => r == Dead(msg)
            case Fault => FaultsEver(code, Start(entry, |p| - 1, arg))
            case _ => false
  {
    hide Steps, Eval;
    var start := Start(entry, |p| - 1, arg);
    fuel :| Steps(code, start, fuel) == r;
    ProgramAgrees(p, code, entry, arg, fuel);
    var o := RunProg(p, arg, fuel);
    if o.Norm? || o.Retn? {
      EndsUnique(code, start, r, Finished(o.l.arg));
    } else if o.Err? {
      EndsUnique(code, start, r, Dead(o.msg));
    }
  }
}
