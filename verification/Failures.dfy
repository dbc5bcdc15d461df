/** Programs on which the server does not do what it is meant to, each from its words to its end. */
module Failures {
  import opened Machine
  import opened Source
  import opened Layout
  import opened Correct
  import opened Backpatch
  import opened Blocks
  import opened Optimize
  import opened Rules
  import opened ClearPass
  import opened Options
  import P = Pipeline
  import OnePass

  // ----- runs one step at a time -----

  /** The run that was at c' after n steps goes on. */
  lemma GoOn(code: Code, c: Config, n: nat, c': Config, c'': Config)
    requires Steps(code, c, n) == c' && Steps(code, c', 1) == c''
    ensures Steps(code, c, n + 1) == c''
  {
    hide Steps;
    StepsAdd(code, c, n, 1);
  }

  lemma WordStep(code: Code, pc: nat, i: Inst, l: View, l': View, a: Act)
    requires pc < |code| && code[pc] == i && Plain(i) && GoodAct(a)
    requires ExecLocal(i, l.arg, l.scope, Floor(a.trys)) == Ok(l'.arg, l'.scope, false)
    ensures Steps(code, At(pc, l, a), 1) == At(pc + 1, l', a)
  {
    hide ExecLocal, Raise;
    ScopesAt(l, a, l'.scope);
    OneStep(code, At(pc, l, a));
  }

  lemma PushStep(code: Code, pc: nat, v: Value, l: View, a: Act)
    requires pc < |code| && GoodAct(a) && |l.arg| < STACK_SIZE
    requires
      match v
      case Int(n) => code[pc] == PushInt(n)
      case Str(s) => code[pc] == PushStr(s)
      case SVar(k) => code[pc] == PushSVar(k)
    ensures Steps(code, At(pc, l, a), 1) == At(pc + 1, View(l.arg + [v], l.scope), a)
  {
    hide Steps;
    WordStep(code, pc, code[pc], l, View(l.arg + [v], l.scope), a);
  }

  /** TRYPOP with no TRY left. */
  lemma {:induction false} EmptyTryPop(code: Code, pc: nat, l: View, a: Act)
    requires pc < |code| && code[pc] == TryPop && GoodAct(a) && a.trys == []
    ensures Steps(code, At(pc, l, a), 1) == Dead("Internal error; TRY stack underflow.")
  {
    OneStep(code, At(pc, l, a));
  }

  const MAIN_CALL: Act := Act([0], [], [])

  /** The main procedure is entered on an empty stack. */
  lemma {:induction false} EnterEmpty(code: Code, at: nat, vars: nat)
    requires at < |code| && code[at] == Function(0, vars)
    ensures Steps(code, Live(State(at, [], [0], [], [], "")), 1) == At(at + 1, View([], Zeros(vars)), MAIN_CALL)
  {
    hide Steps;
    var none: seq<Value> := [];
    assert Drop(none, 0) == none && NewScope(none, 0, vars) == Zeros(vars);
    EnterMain(code, at, 0, vars, none);
  }

  function Zeros(n: nat): Scope {
    seq(n, _ => Int(0))
  }

  lemma MainGood(handler: nat)
    ensures GoodAct(MAIN_CALL) && GoodAct(TryingCall(handler))
    ensures |MAIN_CALL.sys| == 1 && STACK_SIZE > 2
  {}

  /** The main procedure's call inside a TRY that protects nothing. */
  function TryingCall(handler: nat): Act {
    Act([0], [], [TryRec(0, 1, handler)])
  }

  lemma OneOrNone(v: Value)
    ensures
      var none: seq<Value> := [];
      none + [v] == [v] && Drop([v], 1) == none && Drop(none, 0) == none
  {}

  /** 0 TRY, on an empty stack. */
  lemma {:induction false} ZeroTry(code: Code, pc: nat, handler: nat, scope: Scope)
    requires pc < |code| && code[pc] == Inst.Try(handler)
    ensures Steps(code, At(pc, View([Int(0)], scope), MAIN_CALL), 1) == At(pc + 1, View([], scope), TryingCall(handler))
  {
    hide Steps, StateAt;
    var l := View([Int(0)], scope);
    OneOrNone(Int(0));
    StartTryCase(code, pc, handler, l, MAIN_CALL);
    assert StartTry(l, GuardOf(MAIN_CALL)) == Tried(View([], scope), 0);
    var rec := TryRec(0, |MAIN_CALL.sys|, handler);
    assert MAIN_CALL.trys + [rec] == [rec];
    assert MAIN_CALL.(trys := MAIN_CALL.trys + [rec]) == TryingCall(handler);
  }

  // ----- WHILE inside a TRY inside a loop -----

  const TRIED: Cmd := Seq(Word(PushInt(1)), While)
  const TRY_BLOCK: Cmd := TryCatch(TRIED, Word(Primitive(Pop)))
  const LEAVING: Prog := [Proc(0, 0, LoopRepeat(Seq(Word(PushInt(0)), TRY_BLOCK)))]

  const LEAVING_CODE: Code := [
    Function(0, 0), PushInt(0), Inst.Try(8), PushInt(1), TryPop, If(11), TryPop, Jmp(10), Catch, Primitive(Pop), Jmp(1),
    Ret]

  /** The words of the program. */
  const LEAVING_WORDS: seq<OnePass.Token> := [
    OnePass.TColon(0, 0), OnePass.TBegin, OnePass.TWord(PushInt(0)), OnePass.TTry, OnePass.TWord(PushInt(1)),
    OnePass.TWhile, OnePass.TCatch, OnePass.TWord(Primitive(Pop)), OnePass.TEndCatch, OnePass.TRepeat, OnePass.TSemi]

  lemma LeavingWords()
    ensures ProgToks(LEAVING) == LEAVING_WORDS
  {
    assert LEAVING[..0] == [];
    assert Toks(TRIED) == [OnePass.TWord(PushInt(1)), OnePass.TWhile];
    assert Toks(TRY_BLOCK) == [
      OnePass.TTry, OnePass.TWord(PushInt(1)), OnePass.TWhile, OnePass.TCatch, OnePass.TWord(Primitive(Pop)),
      OnePass.TEndCatch];
  }

  lemma WordSize(i: Inst, inLoop: nat, inProc: nat)
    ensures Size(Word(i), inLoop, inProc) == 1
  {}

  lemma OnePop()
    ensures TryPops(1) == [TryPop]
  {}

  lemma {:induction false} TriedLay(entry: seq<nat>)
    ensures Lay(TRIED, 3, Place(11, 1, 1, 1), entry) == [PushInt(1), TryPop, If(11)]
    ensures Size(TRIED, 1, 1) == 3 && Size(TRY_BLOCK, 0, 0) == 8
  {
    hide Lay, Size;
    var w, l, g := Place(11, 1, 1, 1), View([], []), Guard(0, false, 1);
    OnePop();
    Correct.LeafUnfold(LEAVING, entry, 3, w, l, g, 0);
    Correct.LeafUnfold(LEAVING, entry, 4, w, l, g, 0);
    WordSize(PushInt(1), 1, 1);
    WordSize(Primitive(Pop), 0, 0);
    Correct.SeqUnfold(entry, Word(PushInt(1)), While, 3, w);
    Correct.TrySize(TRIED, Word(Primitive(Pop)), 0, 0);
    assert [PushInt(1)] + ([TryPop] + [If(11)]) == [PushInt(1), TryPop, If(11)];
  }

  lemma {:induction false} TryBlockLay(entry: seq<nat>)
    ensures Lay(TRY_BLOCK, 2, Place(11, 1, 0, 0), entry) == [
              Inst.Try(8), PushInt(1), TryPop, If(11), TryPop, Jmp(10), Catch, Primitive(Pop)]
  {
    hide Lay, Size;
    var w, pop := Place(11, 1, 0, 0), Word(Primitive(Pop));
    TriedLay(entry);
    Correct.TryUnfold(entry, TRIED, pop, 2, w);
    Correct.LeafUnfold(LEAVING, entry, 9, w, View([], []), Guard(0, false, 1), 0);
  }

  lemma {:induction false} LeavingLay(entry: seq<nat>)
    ensures LayProc(LEAVING[0], 0, entry) == LEAVING_CODE
  {
    hide Lay, Size;
    var w, push := Place(11, 1, 0, 0), Word(PushInt(0));
    TriedLay(entry);
    TryBlockLay(entry);
    Correct.LeafUnfold(LEAVING, entry, 1, w, View([], []), Guard(0, false, 1), 0);
    Correct.SeqUnfold(entry, push, TRY_BLOCK, 1, w);
    Correct.SeqUnfold(entry, push, TRY_BLOCK, 1, Place(0, 0, 0, 0));
    Correct.LoopUnfold(entry, Seq(push, TRY_BLOCK), 1, Place(0, 0, 0, 0));
  }

  /** A program of one procedure compiles to the layout of that procedure. */
  lemma {:induction false} OneProc(p: Prog) returns (s: OnePass.CState)
    requires |p| == 1 && NestedProg(p)
    ensures P.Compiled(p) == Some(s) && s.procs == [0] && OnePass.FixAddresses(s) == LayProc(p[0], 0, [0])
  {
    hide Lay, Nest, OnePass.Compile, NestedProg, ProcStands;
    s := NestedIsLayout(p);
    assert p[..0] == [];
    assert AllNest([]) == [];
    assert s.procs == [0];
    var code := OnePass.FixAddresses(s);
    assert |AllNest(p)| == |ProcNest(p[0])|;
    assert code == code[..|code|];
  }

  lemma LeavingCodeIs()
    ensures
      var c := LEAVING_CODE;
      && |c| == 12 && c[0] == Function(0, 0) && c[1] == PushInt(0) && c[2] == Inst.Try(8) && c[3] == PushInt(1)
      && c[4] == TryPop && c[5] == If(11) && c[6] == TryPop
  {}

  lemma {:induction false} LeavingEnters(start: Config)
    requires start == Live(State(0, [], [0], [], [], ""))
    ensures Steps(LEAVING_CODE, start, 3) == At(3, View([], []), TryingCall(8))
  {
    hide *;
    LeavingCodeIs();
    var c, a := LEAVING_CODE, MAIN_CALL;
    var l := View([], []);
    MainGood(8);
    EnterEmpty(c, 0, 0);
    assert Zeros(0) == [] by { NoZeros(); }
    PushStep(c, 1, Int(0), l, a);
    OneOrNone(Int(0));
    GoOn(c, start, 1, At(1, l, a), At(2, View([Int(0)], []), a));
    ZeroTry(c, 2, 8, []);
    GoOn(c, start, 2, At(2, View([Int(0)], []), a), At(3, l, TryingCall(8)));
  }

  lemma NoZeros()
    ensures Zeros(0) == []
  {}

  lemma {:induction false} LeavingFalls()
    ensures Steps(LEAVING_CODE, At(3, View([], []), TryingCall(8)), 3) == At(6, View([], []), MAIN_CALL)
  {
    hide *;
    LeavingCodeIs();
    var c, a, tried := LEAVING_CODE, MAIN_CALL, TryingCall(8);
    var l, l1 := View([], []), View([Int(1)], []);
    var start := At(3, l, tried);
    MainGood(8);
    OneOrNone(Int(1));
    PushStep(c, 3, Int(1), l, tried);
    LeaveTry1(c, 4, l1, 8);
    GoOn(c, start, 1, At(4, l1, tried), At(5, l1, a));
    TrueTest(c, 5, 11, []);
    GoOn(c, start, 2, At(5, l1, a), At(6, l, a));
  }

  lemma {:induction false} LeaveTry1(code: Code, pc: nat, l: View, handler: nat)
    requires pc < |code| && code[pc] == TryPop
    ensures Steps(code, At(pc, l, TryingCall(handler)), 1) == At(pc + 1, l, MAIN_CALL)
  {
    hide Steps, StateAt;
    TryPopCase(code, pc, l, TryingCall(handler));
    UntryOne(MAIN_CALL, TryingCall(handler));
  }

  lemma {:induction false} TrueTest(code: Code, pc: nat, target: nat, scope: Scope)
    requires pc < |code| && code[pc] == If(target)
    ensures Steps(code, At(pc, View([Int(1)], scope), MAIN_CALL), 1) == At(pc + 1, View([], scope), MAIN_CALL)
  {
    hide Steps, StateAt;
    var l := View([Int(1)], scope);
    TestCase(code, pc, target, l, MAIN_CALL);
    assert Test(l, GuardOf(MAIN_CALL)) == Tested(true, View([], scope));
  }

  /** The machine, with nothing on the stack, dies: the TRY has been left twice. */
  lemma {:induction false} LeavingDies(entry: seq<nat>)
    requires entry == [0]
    ensures Ends(LEAVING_CODE, Correct.Start(entry, 0, []), Dead("Internal error; TRY stack underflow."))
  {
    hide Steps, StateAt;
    var c, start := LEAVING_CODE, Correct.Start(entry, 0, []);
    var l := View([], []);
    MainGood(8);
    LeavingEnters(start);
    LeavingFalls();
    StepsAdd(c, start, 3, 3);
    EmptyTryPop(c, 6, l, MAIN_CALL);
    GoOn(c, start, 6, At(6, l, MAIN_CALL), Dead("Internal error; TRY stack underflow."));
  }

  lemma UntryOne(a: Act, tried: Act)
    requires a.trys == [] && |tried.trys| == 1 && a == tried.(trys := [])
    ensures Untry(tried, 1) == a
  {}

  /** The program means an endless loop. */
  lemma {:induction false} LeavingLoops(fuel: nat)
    ensures RunProg(LEAVING, [], fuel) == Timeout
  {
    hide Eval;
    var none: seq<Value> := [];
    assert Drop(none, 0) == none && NewScope(none, 0, 0) == none;
    LoopTimesOut(fuel);
  }

  lemma {:induction false} LoopTimesOut(fuel: nat)
    ensures Eval(LEAVING, LEAVING[0].body, View([], []), Guard(0, false, 1), fuel) == Timeout
    decreases fuel
  {
    hide Eval;
    var l, g, b := View([], []), Guard(0, false, 1), LEAVING[0].body.body;
    BodyGoesOn(fuel);
    EvalRepeat(LEAVING, b, l, g, fuel);
    if fuel > 0 {
      LoopTimesOut(fuel - 1);
    }
  }

  lemma {:induction false} PushMeans(n: int, g: Guard, fuel: nat)
    ensures Eval(LEAVING, Word(PushInt(n)), View([], []), g, fuel) == Norm(View([Int(n)], []))
  {
    OneOrNone(Int(n));
  }

  lemma {:induction false} WhileMeans(g: Guard, fuel: nat)
    requires g.floor == 0
    ensures Eval(LEAVING, While, View([Int(1)], []), g, fuel) == Norm(View([], []))
  {
    OneOrNone(Int(1));
  }

  lemma {:induction false} BodyGoesOn(fuel: nat)
    ensures Eval(LEAVING, LEAVING[0].body.body, View([], []), Guard(0, false, 1), fuel) == Norm(View([], []))
  {
    hide Eval;
    var none, g, g1 := View([], []), Guard(0, false, 1), Guard(0, true, 1);
    PushMeans(0, g, fuel);
    PushMeans(1, g1, fuel);
    WhileMeans(g1, fuel);
    EvalSeq(LEAVING, Word(PushInt(1)), While, none, g1, fuel);
    OneOrNone(Int(0));
    assert StartTry(View([Int(0)], []), g) == Tried(none, 0);
    EvalTry(LEAVING, TRIED, Word(Primitive(Pop)), View([Int(0)], []), g, fuel);
    EvalSeq(LEAVING, Word(PushInt(0)), TRY_BLOCK, none, g, fuel);
  }

  /** BEGIN 0 TRY 1 WHILE CATCH POP ENDCATCH REPEAT is accepted by the compiler, means an endless loop, and
      dies. */
  lemma WhileInTryDies()
    ensures ProgToks(LEAVING) == LEAVING_WORDS
    ensures P.Compiled(LEAVING).Some? && |P.Compiled(LEAVING).value.procs| == 1
    ensures
      var s := P.Compiled(LEAVING).value;
      Ends(OnePass.FixAddresses(s), Correct.Start(s.procs, 0, []), Dead("Internal error; TRY stack underflow."))
    ensures forall fuel :: RunProg(LEAVING, [], fuel) == Timeout
  {
    hide OnePass.FixAddresses, OnePass.Compile, Lay, Ends, RunProg, ProgToks;
    LeavingWords();
    var s := OneProc(LEAVING);
    LeavingLay([0]);
    LeavingDies([0]);
    forall fuel ensures RunProg(LEAVING, [], fuel) == Timeout {
      LeavingLoops(fuel);
    }
  }

  // ----- a call with too few arguments inside a TRY -----

  const CALLING: Cmd := TryCatch(Call(0), Word(Primitive(Pop)))
  const FETCHING: Cmd := Seq(Word(PushSVar(0)), Word(Primitive(Fetch)))

  /** A procedure that takes an argument, and one with a variable that calls it without one, inside a TRY, and
      then fetches its variable. */
  const LOSING: Prog := [Proc(1, 1, Skip), Proc(0, 1, Seq(Word(PushInt(0)), Seq(CALLING, FETCHING)))]

  const LOSING_MAIN: Code := [
    Function(0, 1), PushInt(0), Inst.Try(8), Inst.Exec(0), TryPop, Jmp(10), Catch, Primitive(Pop), PushSVar(0),
    Primitive(Fetch), Ret]

  lemma {:induction false} CallingLay(entry: seq<nat>, w: Place)
    requires |entry| > 0 && entry[0] == 0 && w == Place(0, 0, 0, 0)
    ensures Lay(CALLING, 4, w, entry) == [Inst.Try(8), Inst.Exec(0), TryPop, Jmp(10), Catch, Primitive(Pop)]
    ensures Size(CALLING, 0, 0) == 6
  {
    hide Size;
    var call, pop := Call(0), Word(Primitive(Pop));
    assert Lay(call, 5, Inside(w), entry) == [Inst.Exec(0)];
    assert Lay(pop, 9, w, entry) == [Primitive(Pop)];
    CallSize(0, 1, 1);
    WordSize(Primitive(Pop), 0, 0);
    hide Lay;
    Correct.TryUnfold(entry, call, pop, 4, w);
    assert [Inst.Try(8)] + [Inst.Exec(0)] + [TryPop, Jmp(10), Catch] + [Primitive(Pop)]
        == [Inst.Try(8), Inst.Exec(0), TryPop, Jmp(10), Catch, Primitive(Pop)];
  }

  lemma CallSize(f: nat, inLoop: nat, inProc: nat)
    ensures Size(Call(f), inLoop, inProc) == 1
  {}

  lemma {:induction false} FetchingLay(entry: seq<nat>, w: Place)
    ensures Lay(FETCHING, 10, w, entry) == [PushSVar(0), Primitive(Fetch)]
  {
    hide Size;
    assert Lay(Word(PushSVar(0)), 10, w, entry) == [PushSVar(0)];
    assert Lay(Word(Primitive(Fetch)), 11, w, entry) == [Primitive(Fetch)];
    WordSize(PushSVar(0), w.inLoop, w.inProc);
    hide Lay;
    Correct.SeqUnfold(entry, Word(PushSVar(0)), Word(Primitive(Fetch)), 10, w);
  }

  lemma {:induction false} LosingLay(entry: seq<nat>)
    requires |entry| > 0 && entry[0] == 0
    ensures LayProc(LOSING[1], 2, entry) == LOSING_MAIN
  {
    hide Size;
    var w := Place(0, 0, 0, 0);
    assert Lay(Word(PushInt(0)), 3, w, entry) == [PushInt(0)];
    hide Lay;
    WordSize(PushInt(0), 0, 0);
    CallingLay(entry, w);
    FetchingLay(entry, w);
    Correct.SeqUnfold(entry, CALLING, FETCHING, 4, w);
    Correct.SeqUnfold(entry, Word(PushInt(0)), Seq(CALLING, FETCHING), 3, w);
  }

  lemma {:induction false} SkipLay(entry: seq<nat>)
    ensures LayProc(LOSING[0], 0, entry) == [Function(1, 1), Ret]
  {
    assert Lay(Skip, 1, Place(0, 0, 0, 0), entry) == [];
  }

  /** The code of the two procedures. */
  lemma {:induction false} LosingCode() returns (s: OnePass.CState, code: Code)
    ensures P.Compiled(LOSING) == Some(s) && code == OnePass.FixAddresses(s) && s.procs == [0, 2]
    ensures LosingAt(code)
  {
    hide Lay, Nest, OnePass.Compile, ProcStands, OnePass.FixAddresses;
    assert NestedProg(LOSING);
    s := NestedIsLayout(LOSING);
    code := OnePass.FixAddresses(s);
    assert LOSING[..0] == [] && LOSING[..1] == [LOSING[0]];
    assert LOSING[..1][..0] == [];
    NestSizes();
    assert s.procs == [0, 2];
    SkipLay(s.procs);
    LosingLay(s.procs);
    FixedLength(s);
    assert Stands(code, 0, LayProc(LOSING[0], 0, s.procs)) && Stands(code, 2, LayProc(LOSING[1], 2, s.procs));
    StandsAt(code, 0, [Function(1, 1), Ret], 0);
    MainStands(code);
  }

  lemma {:induction false} MainStands(code: Code)
    requires |code| == 13 && code[0] == Function(1, 1) && Stands(code, 2, LOSING_MAIN)
    ensures LosingAt(code)
  {
    hide Stands;
    var i: nat := 0;
    while i < 11
      invariant i <= 11 && forall j :: 0 <= j < i ==> code[2 + j] == LOSING_MAIN[j]
    {
      StandsAt(code, 2, LOSING_MAIN, i);
      i := i + 1;
    }
    assert code[2 + 0] == LOSING_MAIN[0] && code[2 + 1] == LOSING_MAIN[1] && code[2 + 2] == LOSING_MAIN[2];
    assert code[2 + 3] == LOSING_MAIN[3] && code[2 + 6] == LOSING_MAIN[6] && code[2 + 7] == LOSING_MAIN[7];
    assert code[2 + 8] == LOSING_MAIN[8] && code[2 + 9] == LOSING_MAIN[9];
  }

  /** What the run below comes past. */
  predicate LosingAt(code: Code) {
    && |code| == 13 && code[0] == Function(1, 1)
    && code[2] == Function(0, 1) && code[3] == PushInt(0) && code[4] == Inst.Try(8) && code[5] == Inst.Exec(0)
    && code[8] == Catch && code[9] == Primitive(Pop) && code[10] == PushSVar(0) && code[11] == Primitive(Fetch)
  }

  lemma FixedLength(s: OnePass.CState)
    ensures |OnePass.FixAddresses(s)| == |s.words|
  {}

  lemma {:induction false} NestSizes()
    ensures |AllNest([])| == 0 && |AllNest([LOSING[0]])| == 2 && |AllNest(LOSING)| == 13
  {
    hide Nest, Lay;
    assert [LOSING[0]][..0] == [] && LOSING[..1] == [LOSING[0]];
    assert |ProcNest(LOSING[0])| == 2;
    LosingLay([0, 2]);
    assert |LayProc(LOSING[1], 2, [0, 2])| == |ProcNest(LOSING[1])|;
  }

  /** The main procedure goes on, its scope lost. */
  function Lost(pc: nat, arg: seq<Value>): Config {
    Live(State(pc, arg, [0], [], [], ""))
  }

  lemma {:induction false} LostCall(code: Code, scope: Scope)
    requires |code| > 5 && code[5] == Inst.Exec(0) && code[0] == Function(1, 1)
    ensures Steps(code, At(5, View([], scope), TryingCall(8)), 2)
         == Live(State(8, [], [0], [], [TryRec(0, 1, 8)], "Stack Underflow."))
  {
    hide Steps;
    var c := At(5, View([], scope), TryingCall(8));
    var c1 := Live(State(0, [], [0, 6], [scope], [TryRec(0, 1, 8)], ""));
    var none: seq<Scope> := [];
    assert none + [scope] == [scope];
    assert [0] + [6] == [0, 6];
    assert Step(code, c) == c1;
    var kept: seq<Value> := [];
    assert kept[..0] == kept && [0, 6][..1] == [0] && [scope][..0] == none;
    assert Step(code, c1) == Live(State(8, [], [0], [], [TryRec(0, 1, 8)], "Stack Underflow."));
    OneStep(code, c);
    OneStep(code, c1);
    GoOn(code, c, 1, c1, Step(code, c1));
  }

  lemma {:induction false} LostCatch(code: Code)
    requires |code| > 8 && code[8] == Catch
    ensures Steps(code, Live(State(8, [], [0], [], [TryRec(0, 1, 8)], "Stack Underflow.")), 1)
         == Lost(9, [Str("Stack Underflow.")])
  {
    hide Steps;
    var c := Live(State(8, [], [0], [], [TryRec(0, 1, 8)], "Stack Underflow."));
    var none: seq<Value> := [];
    assert none[..0] + [Str("Stack Underflow.")] == [Str("Stack Underflow.")];
    assert [TryRec(0, 1, 8)][..0] == [];
    OneStep(code, c);
  }

  lemma {:induction false} LostWord(code: Code, pc: nat, i: Inst, arg: seq<Value>, arg': seq<Value>)
    requires pc < |code| && code[pc] == i && Plain(i) && ExecLocal(i, arg, [], 0) == Ok(arg', [], false)
    ensures Steps(code, Lost(pc, arg), 1) == Lost(pc + 1, arg')
  {
    hide ExecLocal;
    OneStep(code, Lost(pc, arg));
  }

  lemma {:induction false} LostFetch(code: Code, pc: nat)
    requires pc < |code| && code[pc] == Primitive(Fetch)
    ensures Steps(code, Lost(pc, [SVar(0)]), 1) == Dead("Scoped variable number out of range.")
  {
    OneStep(code, Lost(pc, [SVar(0)]));
  }

  lemma {:induction false} LosingEnters(code: Code)
    requires LosingAt(code)
    ensures Steps(code, Live(State(2, [], [0], [], [], "")), 3) == At(5, View([], [Int(0)]), TryingCall(8))
  {
    assert |code| == 13 && code[2] == Function(0, 1) && code[3] == PushInt(0) && code[4] == Inst.Try(8);
    hide *;
    var start := Live(State(2, [], [0], [], [], ""));
    var l := View([], [Int(0)]);
    MainGood(8);
    EnterEmpty(code, 2, 1);
    assert Zeros(1) == [Int(0)] by { OneZero(); }
    PushStep(code, 3, Int(0), l, MAIN_CALL);
    OneOrNone(Int(0));
    GoOn(code, start, 1, At(3, l, MAIN_CALL), At(4, View([Int(0)], [Int(0)]), MAIN_CALL));
    ZeroTry(code, 4, 8, [Int(0)]);
    GoOn(code, start, 2, At(4, View([Int(0)], [Int(0)]), MAIN_CALL), At(5, l, TryingCall(8)));
  }

  lemma OneZero()
    ensures Zeros(1) == [Int(0)]
  {}

  lemma {:induction false} LosingEnds(code: Code)
    requires LosingAt(code)
    ensures
      var start := Live(State(2, [], [0], [], [], ""));
      && Steps(code, start, 7) == Lost(10, [])
      && Steps(code, start, 9) == Dead("Scoped variable number out of range.")
  {
    assert |code| == 13 && code[0] == Function(1, 1) && code[5] == Inst.Exec(0) && code[8] == Catch;
    assert code[9] == Primitive(Pop) && code[10] == PushSVar(0) && code[11] == Primitive(Fetch);
    hide *;
    var start := Live(State(2, [], [0], [], [], ""));
    var caught := Live(State(8, [], [0], [], [TryRec(0, 1, 8)], "Stack Underflow."));
    var msg := Str("Stack Underflow.");
    LosingEnters(code);
    LostCall(code, [Int(0)]);
    StepsAdd(code, start, 3, 2);
    LostCatch(code);
    GoOn(code, start, 5, caught, Lost(9, [msg]));
    LostPop(code, 9, msg);
    GoOn(code, start, 6, Lost(9, [msg]), Lost(10, []));
    LostPush(code, 10);
    GoOn(code, start, 7, Lost(10, []), Lost(11, [SVar(0)]));
    LostFetch(code, 11);
    GoOn(code, start, 8, Lost(11, [SVar(0)]), Dead("Scoped variable number out of range."));
  }

  lemma {:induction false} LostPop(code: Code, pc: nat, v: Value)
    requires pc < |code| && code[pc] == Primitive(Pop)
    ensures Steps(code, Lost(pc, [v]), 1) == Lost(pc + 1, [])
  {
    hide Steps;
    OneOrNone(v);
    LostWord(code, pc, Primitive(Pop), [v], []);
  }

  lemma {:induction false} LostPush(code: Code, pc: nat)
    requires pc < |code| && code[pc] == PushSVar(0)
    ensures Steps(code, Lost(pc, []), 1) == Lost(pc + 1, [SVar(0)])
  {
    hide Steps;
    OneOrNone(SVar(0));
    LostWord(code, pc, PushSVar(0), [], [SVar(0)]);
  }

  /** A well-formed program, run on an empty stack: after the caught error the main procedure is running
      without its scope, and fetching its own variable is an error. */
  lemma HeaderLosesScope()
    ensures WellFormedProg(LOSING) && P.Compiled(LOSING).Some? && P.Compiled(LOSING).value.procs == [0, 2]
    ensures
      var s := P.Compiled(LOSING).value;
      var code, start := OnePass.FixAddresses(s), Correct.Start(s.procs, 1, []);
      && Steps(code, start, 7) == Live(State(10, [], [0], [], [], ""))
      && Ends(code, start, Dead("Scoped variable number out of range."))
    ensures forall fuel :: RunProg(LOSING, [], fuel) == Fault
  {
    hide OnePass.FixAddresses, OnePass.Compile, Steps, RunProg;
    var s, code := LosingCode();
    LosingEnds(code);
    assert Terminal(Dead("Scoped variable number out of range."));
    forall fuel ensures RunProg(LOSING, [], fuel) == Fault {
      LosingFaults(fuel);
    }
  }

  lemma {:induction false} LosingFaults(fuel: nat)
    ensures RunProg(LOSING, [], fuel) == Fault
  {
    var none: seq<Value> := [];
    var g, g1 := Guard(0, false, 1), Guard(0, true, 1);
    assert Drop(none, 0) == none && NewScope(none, 0, 1) == [Int(0)];
    assert Eval(LOSING, Word(PushInt(0)), View([], [Int(0)]), g, fuel) == Norm(View([Int(0)], [Int(0)]));
    assert Eval(LOSING, Call(0), View([], [Int(0)]), g1, fuel) == Fault;
    assert StartTry(View([Int(0)], [Int(0)]), g) == Tried(View([], [Int(0)]), 0);
    hide Eval;
    EvalTry(LOSING, Call(0), Word(Primitive(Pop)), View([Int(0)], [Int(0)]), g, fuel);
    EvalSeq(LOSING, CALLING, FETCHING, View([Int(0)], [Int(0)]), g, fuel);
    EvalSeq(LOSING, Word(PushInt(0)), Seq(CALLING, FETCHING), View([], [Int(0)]), g, fuel);
  }

  // ----- ++ on a variable that has been cleared -----

  function WordsCmd(ws: Code): Cmd {
    if ws == [] then Skip else Seq(Word(ws[0]), WordsCmd(ws[1..]))
  }

  predicate AllPlain(ws: Code) {
    forall i :: 0 <= i < |ws| ==> Plain(ws[i])
  }

  function Untried(ws: Code): seq<OnePass.Word> {
    seq(|ws|, i requires 0 <= i < |ws| => OnePass.Word(ws[i], false))
  }

  /** Words without control compile one after the other. */
  lemma {:induction false} WordsCompile(s: OnePass.CState, ws: Code)
    requires AllPlain(ws) && s.trys == 0 && s.next.None?
    ensures OnePass.Compile(s, Toks(WordsCmd(ws))) == Some(s.(words := s.words + Untried(ws)))
    decreases |ws|
  {
    if ws == [] {
      assert s.words + Untried(ws) == s.words;
    } else {
      var s1 := s.(words := s.words + [OnePass.Word(ws[0], false)]);
      assert OnePass.Process(s, OnePass.TWord(ws[0])) == Some(s1);
      WordsCompile(s1, ws[1..]);
      CompileAppend(s, [OnePass.TWord(ws[0])], Toks(WordsCmd(ws[1..])));
      CompileOne(s, OnePass.TWord(ws[0]));
      assert s.words + Untried(ws) == s1.words + Untried(ws[1..]);
    }
  }

  /** A procedure of such words. */
  lemma {:induction false} StraightProc(ws: Code, vars: nat) returns (s: OnePass.CState)
    requires AllPlain(ws)
    ensures P.Compiled([Proc(0, vars, WordsCmd(ws))]) == Some(s)
    ensures s.words == Untried([Function(0, vars)] + ws + [Ret]) && s.addrs == [] && s.procs == [0]
  {
    hide Toks;
    var p := [Proc(0, vars, WordsCmd(ws))];
    var colon, semi := OnePass.TColon(0, vars), OnePass.TSemi;
    assert p[..0] == [];
    assert ProgToks(p) == [colon] + Toks(WordsCmd(ws)) + [semi];
    var s1 := OnePass.Initial.(words := [OnePass.Word(Function(0, vars), false)], inProc := true, procs := [0]);
    var i: OnePass.CState := OnePass.Initial;
    assert i.words + [OnePass.Word(Function(0, vars), false)] == [OnePass.Word(Function(0, vars), false)];
    assert i.procs + [|i.words|] == [0];
    assert OnePass.Process(i, colon) == Some(s1);
    WordsCompile(s1, ws);
    var s2 := s1.(words := s1.words + Untried(ws));
    s := s2.(words := s2.words + [OnePass.Word(Ret, false)], inProc := false);
    assert OnePass.Process(s2, semi) == Some(s);
    CompileThree(OnePass.Initial, colon, Toks(WordsCmd(ws)), semi, s1, s2, s);
    assert s.words == Untried([Function(0, vars)] + ws + [Ret]);
  }

  /** "a" v ! v @ v ++ v !, as the words come. */
  const BUMPING: Code := [
    PushStr("a"), PushSVar(0), Primitive(Store), PushSVar(0), Primitive(Fetch), PushSVar(0), Primitive(Incr),
    PushSVar(0), Primitive(Store)]

  const BUMPED: Code := [
    Function(0, 1), PushStr("a"), SVarBang(0), SVarAtClear(0), PushSVar(0), Primitive(Incr), SVarBang(0), Ret]

  const BUMP: Prog := [Proc(0, 1, WordsCmd(BUMPING))]

  /** A node no TRY surrounds, with its first number. */
  function N(id: nat, no: nat, i: Inst): Node {
    Node(id, no, i, false)
  }

  ghost predicate NoJumps(l: Listing) {
    l.addrs == [] && forall j :: 0 <= j < |l.nodes| ==> !HasTarget(l.nodes[j].inst)
  }

  ghost predicate AllClear(flags: seq<bool>) {
    forall i :: 0 <= i < |flags| ==> !flags[i]
  }

  lemma NoMarks(l: Listing)
    requires NoJumps(l)
    ensures AllClear(Marks(l))
  {}

  /** No rule begins with the instruction. */
  predicate Stays(l: Listing, cur: nat)
    requires cur < |l.nodes|
  {
    match l.nodes[cur].inst
    case PushSVar(_) =>
      cur + 1 < |l.nodes| ==> l.nodes[cur + 1].inst != Primitive(Fetch) && l.nodes[cur + 1].inst != Primitive(Store)
    case PushStr(s) => s != ""
    case PushInt(_) => false
    case Primitive(p) => p != Rot && p != Not
    case _ => true
  }

  lemma {:induction false} ScanStays(l: Listing, flags: seq<bool>, cur: nat)
    requires cur < |l.nodes| && Stays(l, cur)
    ensures Scan(l, flags, cur) == Scan(l, flags, cur + 1)
  {
    var a := From(l, cur);
    assert a[0] == l.nodes[cur].inst;
    assert RuleAt(l, flags, cur).Keep?;
  }

  lemma {:induction false} ScanFuses(l: Listing, flags: seq<bool>, cur: nat, l': Listing)
    requires NoJumps(l) && AllClear(flags) && cur + 1 < |l.nodes| && l.nodes[cur].inst.PushSVar?
    requires l.nodes[cur + 1].inst == Primitive(Fetch) || l.nodes[cur + 1].inst == Primitive(Store)
    requires
      var k := l.nodes[cur].inst.k;
      var i := if l.nodes[cur + 1].inst == Primitive(Fetch) then SVarAt(k) else SVarBang(k);
      l' == Listing(l.nodes[..cur] + [l.nodes[cur].(inst := i)] + l.nodes[cur + 2..], [])
    ensures Scan(l, flags, cur) == Scan(l', flags, cur)
  {
    hide Scan;
    var a := From(l, cur);
    assert a[0] == l.nodes[cur].inst && a[1] == l.nodes[cur + 1].inst;
    var free := Free(l, flags, cur);
    assert Unflagged(l, flags, cur + 1, 1);
    assert free >= 1;
    var k := l.nodes[cur].inst.k;
    var i := if l.nodes[cur + 1].inst == Primitive(Fetch) then SVarAt(k) else SVarBang(k);
    assert RuleAt(l, flags, cur) == Fuse(2, [i]);
    ApplyTwo(l, cur, i, l');
    ScanUnfold(l, flags, cur);
  }

  lemma {:induction false} ScanUnfold(l: Listing, flags: seq<bool>, cur: nat)
    requires cur < |l.nodes| && RuleAt(l, flags, cur).Fuse?
    ensures Scan(l, flags, cur) == Scan(Apply(l, cur, RuleAt(l, flags, cur)), flags, cur)
  {
    hide RuleAt, Apply;
  }

  lemma {:induction false} ApplyTwo(l: Listing, cur: nat, i: Inst, l': Listing)
    requires l.addrs == [] && cur + 2 <= |l.nodes| && !i.If?
    requires l' == Listing(l.nodes[..cur] + [l.nodes[cur].(inst := i)] + l.nodes[cur + 2..], [])
    ensures Apply(l, cur, Fuse(2, [i])) == l'
  {
    var m := SetInst(l, cur, i);
    assert RemoveAfter(m, cur, 1) == RemoveNext(m, cur);
    assert m.nodes[..cur + 1] + m.nodes[cur + 2..] == l'.nodes;
  }

  const LISTED: seq<Node> := [
    N(0, 0, Function(0, 1)), N(1, 1, PushStr("a")), N(2, 2, PushSVar(0)), N(3, 3, Primitive(Store)),
    N(4, 4, PushSVar(0)), N(5, 5, Primitive(Fetch)), N(6, 6, PushSVar(0)), N(7, 7, Primitive(Incr)),
    N(8, 8, PushSVar(0)), N(9, 9, Primitive(Store)), N(10, 10, Ret)]

  const FUSED1: seq<Node> := [
    N(0, 0, Function(0, 1)), N(1, 1, PushStr("a")), N(2, 2, SVarBang(0)), N(4, 4, PushSVar(0)),
    N(5, 5, Primitive(Fetch)), N(6, 6, PushSVar(0)), N(7, 7, Primitive(Incr)), N(8, 8, PushSVar(0)),
    N(9, 9, Primitive(Store)), N(10, 10, Ret)]

  const FUSED2: seq<Node> := [
    N(0, 0, Function(0, 1)), N(1, 1, PushStr("a")), N(2, 2, SVarBang(0)), N(4, 4, SVarAt(0)), N(6, 6, PushSVar(0)),
    N(7, 7, Primitive(Incr)), N(8, 8, PushSVar(0)), N(9, 9, Primitive(Store)), N(10, 10, Ret)]

  const FUSED3: seq<Node> := [
    N(0, 0, Function(0, 1)), N(1, 1, PushStr("a")), N(2, 2, SVarBang(0)), N(4, 4, SVarAt(0)), N(6, 6, PushSVar(0)),
    N(7, 7, Primitive(Incr)), N(8, 8, SVarBang(0)), N(10, 10, Ret)]

  const CLEARED: seq<Node> := [
    N(0, 0, Function(0, 1)), N(1, 1, PushStr("a")), N(2, 2, SVarBang(0)), N(4, 4, SVarAtClear(0)),
    N(6, 6, PushSVar(0)), N(7, 7, Primitive(Incr)), N(8, 8, SVarBang(0)), N(10, 10, Ret)]

  lemma {:induction false} ScanOne(flags: seq<bool>)
    requires AllClear(flags)
    ensures Scan(Listing(LISTED, []), flags, 0) == Scan(Listing(FUSED1, []), flags, 2)
  {
    hide Scan;
    var l := Listing(LISTED, []);
    ScanStays(l, flags, 0);
    ScanStays(l, flags, 1);
    assert LISTED[..2] + [LISTED[2].(inst := SVarBang(0))] + LISTED[4..] == FUSED1;
    ScanFuses(l, flags, 2, Listing(FUSED1, []));
  }

  lemma {:induction false} ScanTwo(flags: seq<bool>)
    requires AllClear(flags)
    ensures Scan(Listing(FUSED1, []), flags, 2) == Scan(Listing(FUSED2, []), flags, 3)
  {
    hide Scan;
    var l := Listing(FUSED1, []);
    ScanStays(l, flags, 2);
    assert FUSED1[..3] + [FUSED1[3].(inst := SVarAt(0))] + FUSED1[5..] == FUSED2;
    ScanFuses(l, flags, 3, Listing(FUSED2, []));
  }

  lemma {:induction false} ScanThree(flags: seq<bool>)
    requires AllClear(flags)
    ensures Scan(Listing(FUSED2, []), flags, 3) == Scan(Listing(FUSED3, []), flags, 6)
  {
    hide Scan;
    var l := Listing(FUSED2, []);
    ScanStays(l, flags, 3);
    ScanStays(l, flags, 4);
    ScanStays(l, flags, 5);
    assert FUSED2[..6] + [FUSED2[6].(inst := SVarBang(0))] + FUSED2[8..] == FUSED3;
    ScanFuses(l, flags, 6, Listing(FUSED3, []));
  }

  /** A list in which every instruction stays is left as it is. */
  lemma {:induction false} ScanNothing(l: Listing, flags: seq<bool>, cur: nat)
    requires cur <= |l.nodes| && forall j :: cur <= j < |l.nodes| ==> Stays(l, j)
    ensures Scan(l, flags, cur) == l
    decreases |l.nodes| - cur
  {
    if cur < |l.nodes| {
      ScanStays(l, flags, cur);
      ScanNothing(l, flags, cur + 1);
    }
  }

  lemma {:induction false} ClearsNothing(l: Listing, f: nat)
    requires forall j :: f <= j < |l.nodes| ==> !l.nodes[j].inst.SVarAt?
    ensures ClearFrom(l, f) == l
    decreases |l.nodes| - f
  {
    if f < |l.nodes| {
      ClearsNothing(l, f + 1);
    }
  }

  /** The search from the fetch comes past ++ to the store. */
  lemma {:induction false} SeekSucceeds()
    ensures Seek(Listing(FUSED3, []), 4, 0, 4, 0)
  {
    var l := Listing(FUSED3, []);
    assert Seek(l, 4, 0, 6, 0);
    assert Seek(l, 4, 0, 5, 0);
  }

  lemma {:induction false} ClearOne()
    ensures ClearFrom(Listing(FUSED3, []), 0) == Listing(CLEARED, [])
  {
    hide Seek;
    var l, l' := Listing(FUSED3, []), Listing(CLEARED, []);
    ClearSkips(l, 0);
    ClearSkips(l, 1);
    ClearSkips(l, 2);
    SeekSucceeds();
    assert MaybeClear(l, 3) == SetInst(l, 3, SVarAtClear(0));
    assert FUSED3[3 := N(4, 4, SVarAtClear(0))] == CLEARED;
    ClearUnfold(l, 3);
    ClearsNothing(l', 4);
  }

  lemma {:induction false} ClearSkips(l: Listing, f: nat)
    requires f < |l.nodes| && !l.nodes[f].inst.SVarAt?
    ensures ClearFrom(l, f) == ClearFrom(l, f + 1)
  {}

  lemma {:induction false} ClearUnfold(l: Listing, f: nat)
    requires f < |l.nodes|
    ensures ClearFrom(l, f) == ClearFrom(MaybeClear(l, f), f + 1)
  {}

  lemma {:induction false} FirstPass(l: Listing)
    requires Renumber(l) == Listing(LISTED, [])
    ensures Pass(l) == Listing(CLEARED, [])
  {
    hide Scan, ClearFrom, Marks, Renumber;
    var r := Listing(LISTED, []);
    NoMarks(r);
    var flags := Marks(r);
    ScanOne(flags);
    ScanTwo(flags);
    ScanThree(flags);
    ScanStays(Listing(FUSED3, []), flags, 6);
    ScanStays(Listing(FUSED3, []), flags, 7);
    ScanNothing(Listing(FUSED3, []), flags, 8);
    ClearOne();
  }

  /** The second pass removes nothing. */
  lemma {:induction false} SecondPass() returns (l: Listing)
    ensures l == Pass(Listing(CLEARED, [])) && |l.nodes| == 8 && l.nodes[0].id == 0
    ensures forall j :: 0 <= j < 8 ==> l.nodes[j].inst == BUMPED[j]
  {
    hide Scan, ClearFrom, Marks;
    l := Renumber(Listing(CLEARED, []));
    RenumberFields(Listing(CLEARED, []));
    assert forall j :: 0 <= j < 8 ==> l.nodes[j].inst == BUMPED[j];
    ScanNothing(l, Marks(l), 0);
    ClearsNothing(l, 0);
  }

  lemma {:induction false} BumpListed(s: OnePass.CState)
    requires s.words == Untried([Function(0, 1)] + BUMPING + [Ret]) && s.addrs == []
    ensures Renumber(P.Listed(s)) == Listing(LISTED, [])
  {
    var ws := [Function(0, 1)] + BUMPING + [Ret];
    assert ws == [
      Function(0, 1), PushStr("a"), PushSVar(0), Primitive(Store), PushSVar(0), Primitive(Fetch), PushSVar(0),
      Primitive(Incr), PushSVar(0), Primitive(Store), Ret];
    assert Renumber(P.Listed(s)).nodes == LISTED;
  }

  /** What the compiler and the optimizer make of it. */
  lemma {:induction false} BumpOptimized() returns (s: OnePass.CState)
    ensures P.Compiled(BUMP) == Some(s) && s.procs == [0]
    ensures OnePass.FixAddresses(s) == [Function(0, 1)] + BUMPING + [Ret]
    ensures Flat(P.Optimized(s)) == BUMPED && Find(P.Optimized(s).nodes, 0) == 0
  {
    hide Pass, OnePass.Compile, WordsCmd, Renumber;
    s := StraightProc(BUMPING, 1);
    var ws := [Function(0, 1)] + BUMPING + [Ret];
    assert OnePass.FixAddresses(s) == ws;
    BumpListed(s);
    var l0 := P.Listed(s);
    RenumberFields(l0);
    FirstPass(l0);
    var l := SecondPass();
    TwoPasses(l0, Listing(CLEARED, []), l, P.MAX_PASSES);
    assert Flat(l) == BUMPED;
  }

  lemma {:induction false} TwoPasses(l: Listing, l1: Listing, l2: Listing, n: nat)
    requires n >= 2 && Pass(l) == l1 && |l1.nodes| < |l.nodes| && Pass(l1) == l2 && |l2.nodes| == |l1.nodes|
    ensures Passes(l, n) == l2
  {
    hide Pass;
    assert Passes(l1, n - 1) == l2;
  }

  // ----- and its runs -----

  lemma {:induction false} WordDies(code: Code, pc: nat, i: Inst, l: View, msg: string, kept: nat)
    requires pc < |code| && code[pc] == i && Plain(i)
    requires ExecLocal(i, l.arg, l.scope, 0) == Fail(msg, kept)
    ensures Steps(code, At(pc, l, MAIN_CALL), 1) == Dead(msg)
  {
    hide ExecLocal, Raise, Steps, HeaderStep, TryStep, CatchStep, TryPopStep, RetStep, ExecStep;
    var s := StateAt(pc, l, MAIN_CALL);
    MainFloor();
    MainScope(pc, l);
    OutsideTry(s, msg, kept);
    assert LocalStep(i, s) == Dead(msg);
    OneStep(code, At(pc, l, MAIN_CALL));
  }

  lemma MainScope(pc: nat, l: View)
    ensures TopScope(StateAt(pc, l, MAIN_CALL).svars) == l.scope
  {}

  lemma OutsideTry(s: State, msg: string, kept: nat)
    requires s.trys == []
    ensures Raise(s, msg, kept) == Dead(msg)
  {}

  /** The main procedure, outside a TRY, its one variable holding w. */
  function In(pc: nat, arg: seq<Value>, w: Value): Config {
    At(pc, View(arg, [w]), MAIN_CALL)
  }

  lemma InWord(c: Code, pc: nat, i: Inst, arg: seq<Value>, w: Value, arg': seq<Value>, w': Value)
    requires pc < |c| && c[pc] == i && Plain(i) && ExecLocal(i, arg, [w], 0) == Ok(arg', [w'], false)
    ensures Steps(c, In(pc, arg, w), 1) == In(pc + 1, arg', w')
  {
    hide ExecLocal, Steps;
    MainGood(0);
    MainFloor();
    WordStep(c, pc, i, View(arg, [w]), View(arg', [w']), MAIN_CALL);
  }

  lemma {:induction false} StoreStep(c: Code, pc: nat, v: Value, w: Value)
    requires pc < |c| && c[pc] == Primitive(Store)
    ensures Steps(c, In(pc, [v, SVar(0)], w), 1) == In(pc + 1, [], v)
  {
    hide Steps, In;
    assert [v, SVar(0)][..0] == [] && [w][0 := v] == [v];
    InWord(c, pc, Primitive(Store), [v, SVar(0)], w, [], v);
  }

  lemma {:induction false} BangStep(c: Code, pc: nat, v: Value, w: Value)
    requires pc < |c| && c[pc] == SVarBang(0)
    ensures Steps(c, In(pc, [v], w), 1) == In(pc + 1, [], v)
  {
    hide Steps, In;
    assert [v][..0] == [] && [w][0 := v] == [v];
    InWord(c, pc, SVarBang(0), [v], w, [], v);
  }

  lemma {:induction false} FetchStep(c: Code, pc: nat, w: Value)
    requires pc < |c| && c[pc] == Primitive(Fetch)
    ensures Steps(c, In(pc, [SVar(0)], w), 1) == In(pc + 1, [w], w)
  {
    hide Steps, In;
    assert [SVar(0)][..0] == [] && [] + [w] == [w];
    InWord(c, pc, Primitive(Fetch), [SVar(0)], w, [w], w);
  }

  lemma {:induction false} ClearStep(c: Code, pc: nat, w: Value)
    requires pc < |c| && c[pc] == SVarAtClear(0)
    ensures Steps(c, In(pc, [], w), 1) == In(pc + 1, [w], Int(0))
  {
    hide Steps, In;
    assert [] + [w] == [w] && [w][0 := Int(0)] == [Int(0)];
    InWord(c, pc, SVarAtClear(0), [], w, [w], Int(0));
  }

  lemma {:induction false} IncrStep(c: Code, pc: nat, v: Value)
    requires pc < |c| && c[pc] == Primitive(Incr)
    ensures Steps(c, In(pc, [v, SVar(0)], Int(0)), 1) == In(pc + 1, [v], Int(1))
  {
    hide Steps, In;
    assert [v, SVar(0)][..1] == [v] && [Int(0)][0 := Int(1)] == [Int(1)];
    InWord(c, pc, Primitive(Incr), [v, SVar(0)], Int(0), [v], Int(1));
  }

  lemma {:induction false} IncrDies(c: Code, pc: nat, v: Value)
    requires pc < |c| && c[pc] == Primitive(Incr)
    ensures Steps(c, In(pc, [v, SVar(0)], Str("a")), 1) == Dead("Invalid datatype in variable.")
  {
    hide Steps;
    WordDies(c, pc, Primitive(Incr), View([v, SVar(0)], [Str("a")]), "Invalid datatype in variable.", 1);
  }

  lemma {:induction false} RefStep(c: Code, pc: nat, arg: seq<Value>, w: Value)
    requires pc < |c| && c[pc] == PushSVar(0) && |arg| < 2
    ensures Steps(c, In(pc, arg, w), 1) == In(pc + 1, arg + [SVar(0)], w)
  {
    hide Steps;
    MainGood(0);
    PushStep(c, pc, SVar(0), View(arg, [w]), MAIN_CALL);
  }

  /** "a", first of all. */
  lemma {:induction false} BumpStarts(c: Code)
    requires |c| > 1 && c[0] == Function(0, 1) && c[1] == PushStr("a")
    ensures Steps(c, EMPTY_RUN, 2) == In(2, [Str("a")], Int(0))
  {
    hide Steps, At;
    var z := [Int(0)];
    MainGood(0);
    EnterEmpty(c, 0, 1);
    OneZero();
    OneOrNone(Str("a"));
    PushStep(c, 1, Str("a"), View([], z), MAIN_CALL);
    GoOn(c, EMPTY_RUN, 1, At(1, View([], z), MAIN_CALL), At(2, View([Str("a")], z), MAIN_CALL));
  }

  lemma BumpingCode(c: Code)
    requires c == [Function(0, 1)] + BUMPING + [Ret]
    ensures |c| == 11 && c[0] == Function(0, 1) && c[1] == PushStr("a") && c[2] == PushSVar(0)
    ensures c[3] == Primitive(Store) && c[4] == PushSVar(0) && c[5] == Primitive(Fetch)
    ensures c[6] == PushSVar(0) && c[7] == Primitive(Incr)
  {}

  /** As compiled, ++ finds the string in the variable. */
  lemma {:induction false} BumpFails(c: Code)
    requires c == [Function(0, 1)] + BUMPING + [Ret]
    ensures Steps(c, EMPTY_RUN, 8) == Dead("Invalid datatype in variable.")
  {
    BumpingCode(c);
    hide *;
    var start, a, v, z := EMPTY_RUN, Str("a"), SVar(0), Int(0);
    Pairs(a, v);
    BumpStarts(c);
    RefStep(c, 2, [a], z);
    GoOn(c, start, 2, In(2, [a], z), In(3, [a, v], z));
    StoreStep(c, 3, a, z);
    GoOn(c, start, 3, In(3, [a, v], z), In(4, [], a));
    RefStep(c, 4, [], a);
    GoOn(c, start, 4, In(4, [], a), In(5, [v], a));
    FetchStep(c, 5, a);
    GoOn(c, start, 5, In(5, [v], a), In(6, [a], a));
    RefStep(c, 6, [a], a);
    GoOn(c, start, 6, In(6, [a], a), In(7, [a, v], a));
    IncrDies(c, 7, a);
    GoOn(c, start, 7, In(7, [a, v], a), Dead("Invalid datatype in variable."));
  }

  /** A run from the main procedure at the head of the code, on an empty stack. */
  const EMPTY_RUN: Config := Live(State(0, [], [0], [], [], ""))

  lemma Pairs(a: Value, v: Value)
    ensures
      var none: seq<Value> := [];
      none + [a] == [a] && none + [v] == [v] && [a] + [v] == [a, v]
  {}

  lemma MainFloor()
    ensures Floor(MAIN_CALL.trys) == 0
  {}

  lemma BumpedCode(c: Code)
    requires c == BUMPED
    ensures |c| == 8 && c[0] == Function(0, 1) && c[1] == PushStr("a") && c[2] == SVarBang(0)
    ensures c[3] == SVarAtClear(0) && c[4] == PushSVar(0) && c[5] == Primitive(Incr) && c[6] == SVarBang(0) && c[7] == Ret
  {}

  /** Optimized, it finds the zero that the fetch has left there. */
  lemma {:induction false} BumpGoesOn(c: Code)
    requires c == BUMPED
    ensures Steps(c, EMPTY_RUN, 8) == Live(State(0, [], [], [], [], ""))
  {
    BumpedCode(c);
    hide *;
    var start, a, v, z := EMPTY_RUN, Str("a"), SVar(0), Int(0);
    Pairs(a, v);
    BumpStarts(c);
    BangStep(c, 2, a, z);
    GoOn(c, start, 2, In(2, [a], z), In(3, [], a));
    ClearStep(c, 3, a);
    GoOn(c, start, 3, In(3, [], a), In(4, [a], z));
    RefStep(c, 4, [a], z);
    GoOn(c, start, 4, In(4, [a], z), In(5, [a, v], z));
    IncrStep(c, 5, a);
    GoOn(c, start, 5, In(5, [a, v], z), In(6, [a], Int(1)));
    BangStep(c, 6, a, Int(1));
    GoOn(c, start, 6, In(6, [a], Int(1)), In(7, [], a));
    MainReturns(c, 7, a);
    GoOn(c, start, 7, In(7, [], a), Live(State(0, [], [], [], [], "")));
  }

  lemma {:induction false} MainReturns(code: Code, pc: nat, w: Value)
    requires pc < |code| && code[pc] == Ret
    ensures Steps(code, In(pc, [], w), 1) == Live(State(0, [], [], [], [], ""))
  {
    OneStep(code, In(pc, [], w));
  }

  /** A program whose words the compiler accepts and whose fetch the optimizer turns into a fetch and clear:
      as compiled ++ fails on a string, and optimized it succeeds. So runs in which ++ fails have to be left
      out of what is claimed of the optimizer. */
  lemma BumpSeesClear()
    ensures WellFormedProg(BUMP) && P.Compiled(BUMP).Some? && |P.Compiled(BUMP).value.procs| == 1
    ensures
      var s := P.Compiled(BUMP).value;
      && SVarAtClear(0) in Flat(P.Optimized(s))
      && Yields(OnePass.FixAddresses(s), Correct.Start(s.procs, 0, []), Aborted("Invalid datatype in variable."))
      && P.OptimizedYields(BUMP, s, [], Finished([]))
  {
    hide OnePass.Compile, WordsCmd, Steps, Passes, OnePass.FixAddresses;
    BumpFormed(BUMPING);
    var s := BumpOptimized();
    var code, start := OnePass.FixAddresses(s), EMPTY_RUN;
    BumpFails(code);
    BumpGoesOn(BUMPED);
    assert BUMPED[3] == SVarAtClear(0);
    assert Ends(OnePass.FixAddresses(s), start, Dead("Invalid datatype in variable."));
    assert Ends(BUMPED, start, Live(State(0, [], [], [], [], "")));
  }

  lemma {:induction false} BumpFormed(ws: Code)
    requires AllPlain(ws)
    ensures WellFormed(WordsCmd(ws), false, 0, 0)
    decreases |ws|
  {
    if ws != [] {
      BumpFormed(ws[1..]);
    }
  }
}
