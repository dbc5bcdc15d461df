/** The code a structured program should become, written as a recursive layout with every jump
target known in advance, and the proof that running it is the same as the structured meaning. */
module Layout {
  import opened Machine
  import opened Source

  /** Where BREAK and CONTINUE go, how many TRYs lie inside the loop, and how many in the procedure. */
  datatype Place = Place(brk: nat, cont: nat, inLoop: nat, inProc: nat)

  function TryPops(n: nat): Code {
    seq(n, _ => TryPop)
  }

  /** Number of instructions a command becomes. */
  function Size(c: Cmd, inLoop: nat, inProc: nat): nat {
    match c
    case Skip => 0
    case Seq(a, b) => Size(a, inLoop, inProc) + Size(b, inLoop, inProc)
    case Word(_) => 1
    case Call(_) => 1
    case IfThen(t) => 1 + Size(t, inLoop, inProc)
    case IfElse(t, e) => 2 + Size(t, inLoop, inProc) + Size(e, inLoop, inProc)
    case LoopUntil(b) => Size(b, 0, inProc) + 1
    case LoopRepeat(b) => Size(b, 0, inProc) + 1
    case While => inLoop + 1
    case Break => inLoop + 1
    case Continue => inLoop + 1
    case Exit => inProc + 1
    case TryCatch(b, h) => 4 + Size(b, inLoop + 1, inProc + 1) + Size(h, inLoop, inProc)
  }

  /** The code of c placed at instruction number base. */
  function Lay(c: Cmd, base: nat, w: Place, entry: seq<nat>): (r: Code)
    ensures |r| == Size(c, w.inLoop, w.inProc)
  {
    match c
    case Skip => []
    case Seq(a, b) =>
      Lay(a, base, w, entry) + Lay(b, base + Size(a, w.inLoop, w.inProc), w, entry)
    case Word(i) => [i]
    case Call(f) => [Inst.Exec(if f < |entry| then entry[f] else 0)]
    case IfThen(t) =>
      [If(base + 1 + Size(t, w.inLoop, w.inProc))] + Lay(t, base + 1, w, entry)
    case IfElse(t, e) =>
      IfElseCode(base, Lay(t, base + 1, w, entry), Lay(e, base + 2 + Size(t, w.inLoop, w.inProc), w, entry))
    case LoopUntil(b) =>
      Lay(b, base, Place(base + Size(b, 0, w.inProc) + 1, base, 0, w.inProc), entry) + [If(base)]
    case LoopRepeat(b) =>
      Lay(b, base, Place(base + Size(b, 0, w.inProc) + 1, base, 0, w.inProc), entry) + [Jmp(base)]
    case While => TryPops(w.inLoop) + [If(w.brk)]
    case Break => TryPops(w.inLoop) + [Jmp(w.brk)]
    case Continue => TryPops(w.inLoop) + [Jmp(w.cont)]
    case Exit => TryPops(w.inProc) + [Ret]
    case TryCatch(b, h) =>
      TryCode(base,
              Lay(b, base + 1, Inside(w), entry),
              Lay(h, base + 4 + Size(b, w.inLoop + 1, w.inProc + 1), w, entry))
  }

  /** The place of the body of a TRY. */
  function Inside(w: Place): Place {
    Place(w.brk, w.cont, w.inLoop + 1, w.inProc + 1)
  }

  function IfElseCode(base: nat, thn: Code, els: Code): Code {
    [If(base + 2 + |thn|)] + thn + [Jmp(base + 2 + |thn| + |els|)] + els
  }

  /** TRY at number base, with its body and handler code: the handler address is that of CATCH,
      and the body ends by leaving the TRY and jumping past the handler. */
  function TryCode(base: nat, body: Code, handler: Code): Code {
    [Inst.Try(base + 3 + |body|)] + body
    + [TryPop, Jmp(base + 4 + |body| + |handler|), Catch] + handler
  }

  function LayProc(pr: Proc, base: nat, entry: seq<nat>): (r: Code)
    ensures |r| == Size(pr.body, 0, 0) + 2
  {
    [Function(pr.args, pr.vars)] + Lay(pr.body, base + 1, Place(0, 0, 0, 0), entry) + [Ret]
  }

  /** The piece r stands in code at number base. */
  ghost predicate Stands(code: Code, base: nat, r: Code) {
    base + |r| <= |code| && code[base..base + |r|] == r
  }

  lemma StandsSplit(code: Code, base: nat, r: Code, s: Code)
    requires Stands(code, base, r + s)
    ensures Stands(code, base, r) && Stands(code, base + |r|, s)
  {
    var whole := code[base..base + |r| + |s|];
    assert whole == r + s;
    assert code[base..base + |r|] == whole[..|r|];
    assert code[base + |r|..base + |r| + |s|] == whole[|r|..];
  }

  lemma StandsAt(code: Code, base: nat, r: Code, i: nat)
    requires Stands(code, base, r) && i < |r|
    ensures base + i < |code| && code[base + i] == r[i]
  {
    assert code[base..base + |r|][i] == code[base + i];
  }

  ghost predicate Loaded(code: Code, entry: seq<nat>, p: Prog) {
    && |entry| == |p|
    && forall f :: 0 <= f < |p| ==> Stands(code, entry[f], LayProc(p[f], entry[f], entry))
  }

  // ----- the machine in the middle of an activation -----

  /** What an activation cannot change: its return stack, its callers' scopes, the TRY records. */
  datatype Act = Act(sys: seq<nat>, below: seq<Scope>, trys: seq<TryRec>)

  ghost predicate GoodAct(a: Act) {
    && 0 < |a.sys|
    && |a.below| + 1 == |a.sys|
    && (forall i :: 0 <= i < |a.trys| ==> 0 < a.trys[i].level <= |a.sys|)
    && (forall i, j :: 0 <= i < j < |a.trys| ==> a.trys[i].depth <= a.trys[j].depth)
  }

  function GuardOf(a: Act): Guard {
    Guard(Floor(a.trys), a.trys != [], |a.sys|)
  }

  function StateAt(pc: nat, l: View, a: Act): State {
    State(pc, l.arg, a.sys, a.below + [l.scope], a.trys, "")
  }

  function At(pc: nat, l: View, a: Act): Config {
    Live(StateAt(pc, l, a))
  }

  function Failed(msg: string, l: View, a: Act): Config {
    Raise(StateAt(0, l, a), msg, |l.arg|)
  }

  /** The configuration after RET. */
  function Returned(l: View, a: Act): Config
    requires |a.sys| > 0
  {
    Live(State(a.sys[|a.sys| - 1], l.arg, a.sys[..|a.sys| - 1], a.below, a.trys, ""))
  }

  function Untry(a: Act, n: nat): Act {
    a.(trys := if n <= |a.trys| then a.trys[..|a.trys| - n] else [])
  }

  ghost predicate Alive(code: Code, c: Config, n: nat) {
    !Terminal(Steps(code, c, n))
  }

  /** A function header is about to fail inside a TRY. */
  ghost predicate Faults(code: Code, c: Config) {
    !Terminal(c) && HeaderFails(code, c.st)
  }

  /** What running the code of a command from its first instruction does, n steps later, for each
      way the command can end. */
  ghost predicate Matches(code: Code, from: Config, n: nat, end: nat, w: Place, a: Act, fuel: nat, r: Outcome)
    requires |a.sys| > 0
  {
    match r
    case Norm(l) => Steps(code, from, n) == At(end, l, a) && |l.arg| >= Floor(a.trys)
    case Brk(l) => n > 0 && Steps(code, from, n) == At(w.brk, l, Untry(a, w.inLoop)) && |l.arg| >= Floor(a.trys)
    case Cont(l) => n > 0 && Steps(code, from, n) == At(w.cont, l, Untry(a, w.inLoop)) && |l.arg| >= Floor(a.trys)
    case Retn(l) => n > 0 && Steps(code, from, n) == Returned(l, Untry(a, w.inProc)) && |l.arg| >= Floor(a.trys)
    case Err(msg, l) => n > 0 && Steps(code, from, n) == Failed(msg, l, a) && |l.arg| >= Floor(a.trys)
    case Timeout => Alive(code, from, fuel)
    case Fault => Faults(code, Steps(code, from, n))
  }

  lemma Prepend(code: Code, from: Config, n: nat, mid: Config, m: nat, end: nat, w: Place, a: Act, fuel: nat, r: Outcome)
    requires |a.sys| > 0
    requires Steps(code, from, n) == mid
    requires Matches(code, mid, m, end, w, a, fuel, r)
    ensures Matches(code, from, n + m, end, w, a, fuel, r)
  {
    StepsAdd(code, from, n, m);
    if r.Timeout? {
      AliveEarlier(code, from, n, mid, fuel);
      AliveLess(code, from, n + fuel, fuel);
    }
  }

  lemma AliveEarlier(code: Code, from: Config, n: nat, mid: Config, fuel: nat)
    requires Steps(code, from, n) == mid && Alive(code, mid, fuel)
    ensures Alive(code, from, n + fuel)
  {
    StepsAdd(code, from, n, fuel);
  }

  lemma AliveLess(code: Code, from: Config, n: nat, m: nat)
    requires Alive(code, from, n) && m <= n
    ensures Alive(code, from, m)
  {
    StepsAdd(code, from, m, n - m);
    if Terminal(Steps(code, from, m)) {
      TerminalStays(code, Steps(code, from, m), n - m);
    }
  }

  /** Executing a local instruction never digs below the protected depth. */
  lemma LocalKeepsFloor(i: Inst, arg: seq<Value>, scope: Scope, floor: nat)
    requires Machine.Local(i) && floor <= |arg|
    ensures match ExecLocal(i, arg, scope, floor)
            case Ok(arg', _, _) => floor <= |arg'|
            case Fail(_, kept) => floor <= kept <= |arg|
  {
    hide ApplyPrim;
    if i.Primitive? && !Lacks(arg, PrimFloor(i.p, floor), Arity(i.p)) {
      PrimKeepsFloor(i.p, arg, scope, floor);
    }
  }

  lemma PrimKeepsFloor(p: Prim, arg: seq<Value>, scope: Scope, floor: nat)
    requires floor <= |arg| && !Lacks(arg, PrimFloor(p, floor), Arity(p))
    ensures match ApplyPrim(p, arg, scope)
            case Ok(arg', _, _) => floor <= |arg'|
            case Fail(_, kept) => floor <= kept <= |arg|
  {
    hide VarRefError, Arith, StrOrder, IsFalse, Wrap;
  }

  lemma NoSteps(code: Code, c: Config)
    ensures Steps(code, c, 0) == c
  {}

  lemma OneStep(code: Code, c: Config)
    ensures Steps(code, c, 1) == Step(code, c)
  {
    assert Steps(code, Step(code, c), 0) == Step(code, c);
  }

  lemma ScopesAt(l: View, a: Act, scope: Scope)
    ensures TopScope(StateAt(0, l, a).svars) == l.scope
    ensures SetTopScope(a.below + [l.scope], scope) == a.below + [scope]
  {
    assert (a.below + [l.scope])[..|a.below|] == a.below;
  }

  /** Raise depends on the stack only through what is kept, and not on where it happened. */
  lemma RaiseIsFailed(pc: nat, l: View, a: Act, msg: string, kept: nat)
    requires kept <= |l.arg|
    ensures Raise(StateAt(pc, l, a), msg, kept) == Failed(msg, View(Keep(l.arg, kept), l.scope), a)
  {
    var k := l.arg[..kept];
    assert k[..|k|] == k;
  }

  // ----- one lemma for each kind of word -----

  lemma WordCase(code: Code, pc: nat, i: Inst, l: View, a: Act, p: Prog, w: Place, fuel: nat)
    requires Plain(i) && pc < |code| && code[pc] == i
    requires GoodAct(a) && Floor(a.trys) <= |l.arg|
    ensures Matches(code, At(pc, l, a), 1, pc + 1, w, a, fuel, Eval(p, Word(i), l, GuardOf(a), fuel))
  {
    LocalKeepsFloor(i, l.arg, l.scope, Floor(a.trys));
    OneStep(code, At(pc, l, a));
    match ExecLocal(i, l.arg, l.scope, Floor(a.trys))
    case Ok(arg, scope, jump) =>
      ScopesAt(l, a, scope);
    case Fail(msg, kept) =>
      ScopesAt(l, a, l.scope);
      RaiseIsFailed(pc, l, a, msg, kept);
  }

  /** PROG_IF: one step to the next instruction or to the target. */
  lemma {:induction false} TestCase(code: Code, pc: nat, target: nat, l: View, a: Act)
    requires pc < |code| && code[pc] == If(target)
    requires GoodAct(a) && Floor(a.trys) <= |l.arg|
    ensures match Test(l, GuardOf(a))
            case NoTest(msg) => Steps(code, At(pc, l, a), 1) == Failed(msg, l, a)
            case Tested(v, l') =>
              Steps(code, At(pc, l, a), 1) == At(if v then pc + 1 else target, l', a) && Floor(a.trys) <= |l'.arg|
  {
    OneStep(code, At(pc, l, a));
    ScopesAt(l, a, l.scope);
    if Test(l, GuardOf(a)).NoTest? {
      RaiseIsFailed(pc, l, a, Test(l, GuardOf(a)).msg, |l.arg|);
      assert l.arg[..|l.arg|] == l.arg;
    }
  }

  lemma JumpCase(code: Code, pc: nat, target: nat, l: View, a: Act)
    requires pc < |code| && code[pc] == Jmp(target)
    requires GoodAct(a)
    ensures Steps(code, At(pc, l, a), 1) == At(target, l, a)
  {
    OneStep(code, At(pc, l, a));
  }

  lemma {:induction false} TryPopCase(code: Code, pc: nat, l: View, a: Act)
    requires pc < |code| && code[pc] == TryPop
    requires GoodAct(a) && a.trys != [] && Floor(a.trys) <= |l.arg|
    ensures Steps(code, At(pc, l, a), 1) == At(pc + 1, l, Untry(a, 1))
  {
    hide ExecLocal, Raise, RetStep, CatchStep, TryStep, HeaderStep, ExecStep;
    OneStep(code, At(pc, l, a));
  }

  lemma {:induction false} TryPopsCase(code: Code, pc: nat, n: nat, l: View, a: Act)
    requires Stands(code, pc, TryPops(n)) && n <= |a.trys|
    requires GoodAct(a) && Floor(a.trys) <= |l.arg|
    ensures Steps(code, At(pc, l, a), n) == At(pc + n, l, Untry(a, n))
    ensures GoodAct(Untry(a, n)) && Floor(Untry(a, n).trys) <= |l.arg|
    decreases n
  {
    hide Step, Stands;
    if n == 0 {
      assert a.trys[..|a.trys|] == a.trys;
    } else {
      assert TryPops(n) == [TryPop] + TryPops(n - 1);
      StandsSplit(code, pc, [TryPop], TryPops(n - 1));
      StandsAt(code, pc, [TryPop], 0);
      var a' := Untry(a, 1);
      TryPopCase(code, pc, l, a);
      TryPopsCase(code, pc + 1, n - 1, l, a');
      StepsAdd(code, At(pc, l, a), 1, n - 1);
      assert Untry(a', n - 1) == Untry(a, n);
    }
  }
}
