/** MUF programs as trees of control structures, and what they mean without any jumps. */
module Source {
  import opened Machine

  datatype Cmd =
    | Skip
    | Seq(first: Cmd, second: Cmd)
    | Word(i: Inst)
    | Call(f: nat)
    | IfThen(thn: Cmd)
    | IfElse(thn: Cmd, els: Cmd)
    | LoopUntil(body: Cmd)
    | LoopRepeat(body: Cmd)
    | While
    | Break
    | Continue
    | Exit
    | TryCatch(body: Cmd, handler: Cmd)

  datatype Proc = Proc(args: nat, vars: nat, body: Cmd)
  type Prog = seq<Proc>

  /** The words that compile to one instruction and have no control effect. */
  predicate Plain(i: Inst) {
    Local(i) && !i.If?
  }

  /** WHILE, BREAK and CONTINUE stand inside a loop; a WHILE has no TRY between itself and the
      loop; a procedure calls itself and procedures defined before it. */
  predicate WellFormed(c: Cmd, inLoop: bool, trysInLoop: nat, self: nat) {
    match c
    case Skip => true
    case Seq(a, b) => WellFormed(a, inLoop, trysInLoop, self) && WellFormed(b, inLoop, trysInLoop, self)
    case Word(i) => Plain(i)
    case Call(f) => f <= self
    case IfThen(t) => WellFormed(t, inLoop, trysInLoop, self)
    case IfElse(t, e) => WellFormed(t, inLoop, trysInLoop, self) && WellFormed(e, inLoop, trysInLoop, self)
    case LoopUntil(b) => WellFormed(b, true, 0, self)
    case LoopRepeat(b) => WellFormed(b, true, 0, self)
    case While => inLoop && trysInLoop == 0
    case Break => inLoop
    case Continue => inLoop
    case Exit => true
    case TryCatch(b, h) => WellFormed(b, inLoop, trysInLoop + 1, self) && WellFormed(h, inLoop, trysInLoop, self)
  }

  predicate WellFormedProg(p: Prog) {
    forall f :: 0 <= f < |p| ==> WellFormed(p[f].body, false, 0, f)
  }

  /** The same without the demand on WHILE: all that the compiler asks. */
  predicate Nested(c: Cmd, inLoop: bool, self: nat) {
    match c
    case Skip => true
    case Seq(a, b) => Nested(a, inLoop, self) && Nested(b, inLoop, self)
    case Word(i) => Plain(i)
    case Call(f) => f <= self
    case IfThen(t) => Nested(t, inLoop, self)
    case IfElse(t, e) => Nested(t, inLoop, self) && Nested(e, inLoop, self)
    case LoopUntil(b) => Nested(b, true, self)
    case LoopRepeat(b) => Nested(b, true, self)
    case While => inLoop
    case Break => inLoop
    case Continue => inLoop
    case Exit => true
    case TryCatch(b, h) => Nested(b, inLoop, self) && Nested(h, inLoop, self)
  }

  predicate NestedProg(p: Prog) {
    forall f :: 0 <= f < |p| ==> Nested(p[f].body, false, f)
  }

  lemma {:induction false} FormedNested(c: Cmd, inLoop: bool, trysInLoop: nat, self: nat)
    requires WellFormed(c, inLoop, trysInLoop, self)
    ensures Nested(c, inLoop, self)
    decreases c
  {
    match c
    case Seq(a, b) =>
      FormedNested(a, inLoop, trysInLoop, self);
      FormedNested(b, inLoop, trysInLoop, self);
    case IfThen(t) =>
      FormedNested(t, inLoop, trysInLoop, self);
    case IfElse(t, e) =>
      FormedNested(t, inLoop, trysInLoop, self);
      FormedNested(e, inLoop, trysInLoop, self);
    case LoopUntil(b) =>
      FormedNested(b, true, 0, self);
    case LoopRepeat(b) =>
      FormedNested(b, true, 0, self);
    case TryCatch(b, h) =>
      FormedNested(b, inLoop, trysInLoop + 1, self);
      FormedNested(h, inLoop, trysInLoop, self);
    case _ =>
  }

  /** What one activation of a procedure can see and change. */
  datatype View = View(arg: seq<Value>, scope: Scope)

  /** How a command ends. Fault: a procedure called inside some TRY found too few arguments;
      the interpreter then loses a scope, and nothing is claimed about what follows. */
  datatype Outcome =
    | Norm(l: View) | Brk(l: View) | Cont(l: View) | Retn(l: View)
    | Err(msg: string, l: View)
    | Fault
    | Timeout

  /** The innermost protected depth, whether any TRY is active, and the call depth. */
  datatype Guard = Guard(floor: nat, guarded: bool, depth: nat)

  function Keep(arg: seq<Value>, kept: nat): seq<Value> {
    if kept <= |arg| then arg[..kept] else arg
  }

  /** Pop the condition: None when it cannot be popped. */
  datatype Tested = Tested(value: bool, l: View) | NoTest(msg: string)

  function Test(l: View, g: Guard): Tested {
    if Lacks(l.arg, g.floor, 1) then NoTest(LackMsg(l.arg, 1, "Stack Underflow."))
    else Tested(!IsFalse(Top(l.arg)), View(Drop(l.arg, 1), l.scope))
  }

  /** The checks of TRY: the stack without the count and the depth to protect, or an error. */
  datatype Tried = Tried(l: View, depth: nat) | NoTry(msg: string, l: View)

  function StartTry(l: View, g: Guard): Tried {
    if Lacks(l.arg, g.floor, 1) then NoTry(LackMsg(l.arg, 1, "Stack Underflow."), l)
    else
      var v := Top(l.arg);
      var l' := View(Drop(l.arg, 1), l.scope);
      if !v.Int? || v.n < 0 then NoTry("Argument is not a positive integer.", l')
      else if g.guarded && |l'.arg| - g.floor < v.n then NoTry("Stack protection fault.", l')
      else if v.n > |l'.arg| then NoTry("Stack Underflow.", l')
      else Tried(l', |l'.arg| - v.n)
  }

  function Eval(p: Prog, c: Cmd, l: View, g: Guard, fuel: nat): Outcome
    decreases fuel, c
  {
    match c
    case Skip => Norm(l)
    case Seq(a, b) =>
      var r := Eval(p, a, l, g, fuel);
      if r.Norm? then Eval(p, b, r.l, g, fuel) else r
    case Word(i) =>
      if !Plain(i) then Fault else
      (match ExecLocal(i, l.arg, l.scope, g.floor)
       case Ok(arg, scope, _) => Norm(View(arg, scope))
       case Fail(msg, kept) => Err(msg, View(Keep(l.arg, kept), l.scope)))
    case Call(f) =>
      if g.depth >= STACK_SIZE then Err("System Stack Overflow", l)
      else if f >= |p| then Fault
      else if Lacks(l.arg, g.floor, p[f].args) then
        if g.guarded then Fault else Err(LackMsg(l.arg, p[f].args, "Stack Underflow."), l)
      else if fuel == 0 then Timeout
      else
        var callee := View(Drop(l.arg, p[f].args), NewScope(l.arg, p[f].args, p[f].vars));
        (match Eval(p, p[f].body, callee, g.(depth := g.depth + 1), fuel - 1)
         case Norm(l') => Norm(View(l'.arg, l.scope))
         case Retn(l') => Norm(View(l'.arg, l.scope))
         case Err(msg, l') => Err(msg, View(l'.arg, l.scope))
         case Timeout => Timeout
         case _ => Fault)
    case IfThen(t) =>
      (match Test(l, g)
       case NoTest(msg) => Err(msg, l)
       case Tested(v, l') => if v then Eval(p, t, l', g, fuel) else Norm(l'))
    case IfElse(t, e) =>
      (match Test(l, g)
       case NoTest(msg) => Err(msg, l)
       case Tested(v, l') => Eval(p, if v then t else e, l', g, fuel))
    case LoopRepeat(b) =>
      (match Eval(p, b, l, g, fuel)
       case Norm(l') => if fuel == 0 then Timeout else Eval(p, c, l', g, fuel - 1)
       case Cont(l') => if fuel == 0 then Timeout else Eval(p, c, l', g, fuel - 1)
       case Brk(l') => Norm(l')
       case r => r)
    case LoopUntil(b) =>
      (match Eval(p, b, l, g, fuel)
       case Norm(l') =>
         (match Test(l', g)
          case NoTest(msg) => Err(msg, l')
          case Tested(v, l'') =>
            if v then Norm(l'') else if fuel == 0 then Timeout else Eval(p, c, l'', g, fuel - 1))
       case Cont(l') => if fuel == 0 then Timeout else Eval(p, c, l', g, fuel - 1)
       case Brk(l') => Norm(l')
       case r => r)
    case While =>
      (match Test(l, g)
       case NoTest(msg) => Err(msg, l)
       case Tested(v, l') => if v then Norm(l') else Brk(l'))
    case Break => Brk(l)
    case Continue => Cont(l)
    case Exit => Retn(l)
    case TryCatch(b, h) =>
      (match StartTry(l, g)
       case NoTry(msg, l') => Err(msg, l')
       case Tried(l', depth) =>
         match Eval(p, b, l', g.(floor := depth, guarded := true), fuel)
         case Err(msg, l'') =>
           Eval(p, h, View(Keep(l''.arg, depth) + [Str(msg)], l''.scope), g, fuel)
         case r => r)
  }

  /** A whole program: its last procedure, called on an initial stack with no TRY active. */
  function RunProg(p: Prog, arg: seq<Value>, fuel: nat): Outcome
    requires |p| > 0
  {
    var main := p[|p| - 1];
    if Lacks(arg, 0, main.args) then Err(LackMsg(arg, main.args, "Stack Underflow."), View(arg, []))
    else Eval(p, main.body, View(Drop(arg, main.args), NewScope(arg, main.args, main.vars)),
              Guard(0, false, 1), fuel)
  }
}
