/** The interpreter as the program that it is: a frame whose fields one loop updates. Each method is
proved to do exactly what the machine's step function says. */
module Interp {
  import opened Machine

  class Frame {
    var pc: nat
    var arg: seq<Value>
    var sys: seq<nat>
    var svars: seq<Scope>
    var trys: seq<TryRec>
    var err: string
    var dead: bool
    var fault: string

    constructor (start: nat, initial: seq<Value>)
      ensures Now() == Live(State(start, initial, [0], [], [], ""))
    {
      pc, arg, sys, svars, trys, err, dead, fault := start, initial, [0], [], [], "", false, "";
    }

    function Snapshot(): State
      reads this
    {
      State(pc, arg, sys, svars, trys, err)
    }

    function Now(): Config
      reads this
    {
      if dead then Dead(fault) else Live(Snapshot())
    }

    method ScopedvarPoplevel() returns (ok: bool)
      modifies `svars
      ensures ok == (old(svars) != []) && svars == PopScopes(old(svars), 1)
    {
      if svars == [] {
        return false;
      }
      svars := svars[..|svars| - 1];
      return true;
    }

    /** The end of the program with an error no TRY catches. */
    method Die(msg: string)
      modifies `dead, `fault
      ensures dead && fault == msg
    {
      dead, fault := true, msg;
    }

    /** Error unwinding: drop the calls made since the innermost TRY, each with its scope, and go on
        at the handler. */
    method Unwind(msg: string, kept: nat)
      requires !dead
      modifies this
      ensures Now() == Raise(old(Snapshot()), msg, kept)
    {
      if trys == [] {
        Die(msg);
        return;
      }
      var rec := trys[|trys| - 1];
      if kept <= |arg| {
        arg := arg[..kept];
      }
      err := msg;
      ghost var n := 0;
      while rec.level < |sys|
        invariant n <= |old(sys)| && sys == old(sys)[..|old(sys)| - n]
        invariant rec.level <= |old(sys)| ==> rec.level <= |sys|
        invariant rec.level > |old(sys)| ==> n == 0
        invariant svars == PopScopes(old(svars), n)
        invariant !dead && trys == old(trys) && err == msg
        invariant arg == if kept <= |old(arg)| then old(arg)[..kept] else old(arg)
      {
        var _ := ScopedvarPoplevel();
        sys := sys[..|sys| - 1];
        n := n + 1;
      }
      pc := rec.handler;
    }

    /** A fresh level of zeros, then the arguments popped into it from the last to the first. */
    method TakeArguments(args: nat, vars: nat) returns (level: Scope)
      requires args <= |arg|
      modifies `arg
      ensures arg == Drop(old(arg), args) && level == NewScope(old(arg), args, vars)
    {
      var size := if vars > args then vars else args;
      level := seq(size, _ => Int(0));
      var i := args;
      while i > 0
        invariant 0 <= i <= args && |level| == size
        invariant |arg| == |old(arg)| - (args - i) && arg == old(arg)[..|arg|]
        invariant forall j :: i <= j < args ==> level[j] == old(arg)[|old(arg)| - args + j]
        invariant forall j :: 0 <= j < size && !(i <= j < args) ==> level[j] == Int(0)
      {
        i := i - 1;
        level := level[i := arg[|arg| - 1]];
        arg := arg[..|arg| - 1];
      }
      ScopeIs(level, old(arg), args, vars);
    }

    method EnterFunction(args: nat, vars: nat)
      requires !dead
      modifies this
      ensures Now() == HeaderStep(args, vars, old(Snapshot()))
    {
      hide Raise;
      if |arg| < args {
        Unwind("Stack Underflow.", |arg|);
      } else if trys != [] && |arg| - trys[|trys| - 1].depth < args {
        Unwind("Stack protection fault.", |arg|);
      } else {
        var level := TakeArguments(args, vars);
        svars := svars + [level];
        pc := pc + 1;
      }
    }

    method StartTry(handler: nat)
      requires !dead
      modifies this
      ensures Now() == TryStep(handler, old(Snapshot()))
    {
      hide Raise;
      if |arg| < 1 {
        Unwind("Stack Underflow.", |arg|);
      } else if trys != [] && |arg| - trys[|trys| - 1].depth < 1 {
        Unwind("Stack protection fault.", |arg|);
      } else {
        var v := arg[|arg| - 1];
        arg := arg[..|arg| - 1];
        assert arg + [v] == old(arg);
        if !v.Int? || v.n < 0 {
          UnwindPopped("Argument is not a positive integer.", v);
        } else if trys != [] && |arg| - trys[|trys| - 1].depth < v.n {
          UnwindPopped("Stack protection fault.", v);
        } else if v.n > |arg| {
          UnwindPopped("Stack Underflow.", v);
        } else {
          trys := trys + [TryRec(|arg| - v.n, |sys|, handler)];
          pc := pc + 1;
        }
      }
    }

    /** Unwinding when the operand is already off the stack. */
    method UnwindPopped(msg: string, ghost v: Value)
      requires !dead
      modifies this
      ensures Now() == Raise(old(Snapshot()).(arg := old(arg) + [v]), msg, |old(arg)|)
    {
      assert (arg + [v])[..|arg|] == arg == arg[..|arg|];
      Unwind(msg, |arg|);
    }

    /** CATCH: clear the stack down to the depth the TRY recorded, leave the TRY, push the message. */
    method Catch()
      requires !dead
      modifies this
      ensures Now() == CatchStep(old(Snapshot()))
    {
      if trys == [] {
        Die("Internal error.  TRY stack underflow.");
      } else {
        var depth := trys[|trys| - 1].depth;
        while |arg| > depth
          invariant |arg| <= |old(arg)| && arg == old(arg)[..|arg|]
          invariant |old(arg)| > depth ==> |arg| >= depth
          invariant |old(arg)| <= depth ==> arg == old(arg)
          invariant unchanged(`pc) && unchanged(`sys) && unchanged(`svars) && unchanged(`trys) && unchanged(`err)
          invariant !dead
        {
          arg := arg[..|arg| - 1];
        }
        trys := trys[..|trys| - 1];
        arg := arg + [Str(err)];
        err := "";
        pc := pc + 1;
      }
    }

    method TryPop()
      requires !dead
      modifies this
      ensures Now() == TryPopStep(old(Snapshot()))
    {
      hide Raise;
      if trys == [] {
        Die("Internal error; TRY stack underflow.");
      } else if |arg| - trys[|trys| - 1].depth < 0 {
        Unwind("Stack protection fault.", |arg|);
      } else {
        trys := trys[..|trys| - 1];
        pc := pc + 1;
      }
    }

    /** An instruction that touches only the argument stack and the innermost scope. */
    method RunLocal(i: Inst)
      requires !dead && Local(i)
      modifies this
      ensures Now() == LocalStep(i, old(Snapshot()))
    {
      match ExecLocal(i, arg, TopScope(svars), Floor(trys))
      case Ok(arg', scope, jump) =>
        arg := arg';
        svars := SetTopScope(svars, scope);
        pc := if jump && i.If? then i.target else pc + 1;
      case Fail(msg, kept) =>
        Unwind(msg, kept);
    }

    /** One turn of the loop. */
    method Turn(code: Code)
      requires !dead && |sys| > 0
      modifies this
      ensures Now() == StepState(code, old(Snapshot()))
    {
      if pc >= |code| {
        Die("wild pc");
        return;
      }
      var i := code[pc];
      if Local(i) {
        RunLocal(i);
      } else {
        match i {
          case Function(args, vars) => EnterFunction(args, vars);
          case Exec(t) =>
            if |sys| >= STACK_SIZE {
              Unwind("System Stack Overflow", |arg|);
            } else {
              sys := sys + [pc + 1];
              pc := t;
            }
          case Jmp(t) => pc := t;
          case Try(h) => StartTry(h);
          case Ret =>
            var _ := ScopedvarPoplevel();
            pc := sys[|sys| - 1];
            sys := sys[..|sys| - 1];
          case TryPop => TryPop();
          case Catch => Catch();
        }
      }
    }

    /** interp_loop for at most slice instructions, after which a long program is put back on the
        queue. It stops early when the return stack is empty or the program has died. */
    method InterpLoop(code: Code, slice: nat)
      modifies this
      ensures Now() == Steps(code, old(Now()), slice)
    {
      ghost var c := Now();
      var n := 0;
      while n < slice && !dead && |sys| > 0
        invariant n <= slice && Now() == Steps(code, c, n)
      {
        OneMore(code, c, n);
        Turn(code);
        n := n + 1;
      }
      if n < slice {
        Rest(code, c, n, slice);
      }
    }
  }

  /** Arguments first, zeros after them: the scope of a new call. */
  lemma ScopeIs(level: Scope, arg: seq<Value>, args: nat, vars: nat)
    requires args <= |arg| && |level| == if vars > args then vars else args
    requires forall j :: 0 <= j < args ==> level[j] == arg[|arg| - args + j]
    requires forall j :: args <= j < |level| ==> level[j] == Int(0)
    ensures level == NewScope(arg, args, vars)
  {}

  lemma OneMore(code: Code, c: Config, n: nat)
    ensures Steps(code, c, n + 1) == Step(code, Steps(code, c, n))
  {
    hide Step;
    StepsAdd(code, c, n, 1);
    var x := Steps(code, c, n);
    assert Steps(code, Step(code, x), 0) == Step(code, x);
  }

  lemma Rest(code: Code, c: Config, n: nat, m: nat)
    requires n <= m && Terminal(Steps(code, c, n))
    ensures Steps(code, c, m) == Steps(code, c, n)
  {
    StepsAdd(code, c, n, m - n);
    TerminalStays(code, Steps(code, c, n), m - n);
  }
}
