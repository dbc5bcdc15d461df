/** The MUF machine: values, instructions, and the meaning of one step of the interpreter loop.

The argument stack and the system (return) stack grow at the end of their sequences, as the
arrays of the original do; the linked lists of scoped-variable levels and of TRY records also
have their innermost entry last, so that "the first n levels" is a prefix.
*/
module Machine {
  import opened CInts

  const STACK_SIZE: nat := 1024
  const MAX_VAR: nat := 54

  datatype Value = Int(n: int) | Str(s: string) | SVar(k: nat)

  datatype MathOp = Add | Sub | Mul | Div | Mod

  /** Primitives that work on the argument stack and the innermost scope. The three that change
      control (RET, TRYPOP, CATCH) are instructions of their own below. */
  datatype Prim =
    | Fetch | Store | Pop | Dup | Swap | Rot | Not | Equal | Strcmp
    | Math(op: MathOp) | Incr | Decr | Abort

  /** A jump target is an index into the address table while compiling and an instruction
      number in the finished program. */
  datatype Inst =
    | PushInt(n: int)
    | PushStr(s: string)
    | PushSVar(k: nat)
    | SVarAt(k: nat)
    | SVarAtClear(k: nat)
    | SVarBang(k: nat)
    | Function(args: nat, vars: nat)
    | If(target: nat)
    | Jmp(target: nat)
    | Exec(target: nat)
    | Try(target: nat)
    | Primitive(p: Prim)
    | Ret
    | TryPop
    | Catch

  type Code = seq<Inst>
  type Scope = seq<Value>

  /** What PROG_TRY records: the argument height to restore, the call depth, the handler. */
  datatype TryRec = TryRec(depth: nat, level: nat, handler: nat)

  datatype State = State(
    pc: nat,
    arg: seq<Value>,
    sys: seq<nat>,
    svars: seq<Scope>,
    trys: seq<TryRec>,
    err: string)

  /** A program is still running, or was ended by an error no TRY caught. */
  datatype Config = Live(st: State) | Dead(msg: string)

  predicate Halted(c: Config) {
    c.Live? && |c.st.sys| == 0
  }

  predicate Terminal(c: Config) {
    c.Dead? || Halted(c)
  }

  // ----- C integers -----

  /** Two's complement wrap-around of a 32-bit int. */
  function Wrap(n: int): int {
    (n + 0x8000_0000) % 0x1_0000_0000 - 0x8000_0000
  }

  /** A result is kept when it fits, and otherwise the int that differs from it by whole turns. */
  lemma {:induction false} WrapIs(n: int)
    ensures -0x8000_0000 <= Wrap(n) < 0x8000_0000 && (n - Wrap(n)) % 0x1_0000_0000 == 0
    ensures Wrap(n) == n <==> -0x8000_0000 <= n < 0x8000_0000
  {
    var q := (n + 0x8000_0000) / 0x1_0000_0000;
    assert n - Wrap(n) == q * 0x1_0000_0000;
  }

  /** The sign of strcmp. */
  function StrOrder(s: string, t: string): int {
    if s == [] && t == [] then 0
    else if s == [] then -1
    else if t == [] then 1
    else if s[0] < t[0] then -1
    else if s[0] > t[0] then 1
    else StrOrder(s[1..], t[1..])
  }

  predicate IsFalse(v: Value) {
    match v
    case Int(n) => n == 0
    case Str(s) => s == ""
    case SVar(_) => false
  }

  function Truth(b: bool): Value {
    Int(if b then 1 else 0)
  }

  // ----- instructions that touch only the argument stack and the innermost scope -----

  /** Ok gives the new stack and scope, and whether a conditional jump is taken.
      Fail gives the message and how many stack entries the instruction left behind. */
  datatype Effect = Ok(arg: seq<Value>, scope: Scope, jump: bool) | Fail(msg: string, kept: nat)

  /** Instructions whose effect is an Effect. */
  predicate Local(i: Inst) {
    match i
    case Function(_, _) => false
    case Jmp(_) => false
    case Exec(_) => false
    case Try(_) => false
    case Ret => false
    case TryPop => false
    case Catch => false
    case _ => true
  }

  function Top(arg: seq<Value>): Value
    requires |arg| > 0
  {
    arg[|arg| - 1]
  }

  /** The entry i places below the top. */
  function Below(arg: seq<Value>, i: nat): Value
    requires i < |arg|
  {
    arg[|arg| - 1 - i]
  }

  function Drop(arg: seq<Value>, n: nat): seq<Value>
    requires n <= |arg|
  {
    arg[..|arg| - n]
  }

  /** The two underflow tests that guard every operation taking n operands: the stack must
      hold them, and they must lie above the depth the innermost TRY protects. */
  predicate Lacks(arg: seq<Value>, floor: nat, n: nat) {
    |arg| < n || |arg| - floor < n
  }

  function LackMsg(arg: seq<Value>, n: nat, underflow: string): string {
    if |arg| < n then underflow else "Stack protection fault."
  }

  function Push(arg: seq<Value>, scope: Scope, v: Value): Effect {
    if |arg| >= STACK_SIZE then Fail("Stack overflow.", |arg|) else Ok(arg + [v], scope, false)
  }

  function Arith(op: MathOp, a: int, b: int): int {
    match op
    case Add => Wrap(a + b)
    case Sub => Wrap(a - b)
    case Mul => Wrap(a * b)
    case Div => if b == 0 then 0 else Wrap(TruncDiv(a, b))
    case Mod => if b == 0 then 0 else Wrap(TruncMod(a, b))
  }

  function Arity(p: Prim): nat {
    match p
    case Rot => 3
    case Store => 2
    case Swap => 2
    case Equal => 2
    case Strcmp => 2
    case Math(_) => 2
    case _ => 1
  }

  /** ++ and -- change an integer on the stack, or the variable a reference names. */
  function Bump(arg: seq<Value>, scope: Scope, delta: int): Effect
    requires |arg| >= 1
  {
    match Top(arg)
    case Int(n) => Ok(Drop(arg, 1) + [Int(Wrap(n + delta))], scope, false)
    case SVar(k) =>
      if k > MAX_VAR then Fail("Variable number out of range.", |arg| - 1)
      else if k >= |scope| then Fail("Scoped variable number out of range.", |arg| - 1)
      else if !scope[k].Int? then Fail("Invalid datatype in variable.", |arg| - 1)
      else Ok(Drop(arg, 1), scope[k := Int(Wrap(scope[k].n + delta))], false)
    case Str(_) => Fail("Invalid datatype.", |arg| - 1)
  }

  function VarRefError(v: Value, scope: Scope, suffix: string): string {
    if !v.SVar? then "Non-variable argument" + suffix
    else if v.k >= MAX_VAR then "Variable number out of range." + suffix
    else "Scoped variable number out of range."
  }

  predicate GoodVarRef(v: Value, scope: Scope) {
    v.SVar? && v.k < MAX_VAR && v.k < |scope|
  }

  /** A primitive whose operands are known to be there. */
  function ApplyPrim(p: Prim, arg: seq<Value>, scope: Scope): Effect
    requires |arg| >= Arity(p)
  {
    match p
    case Fetch =>
      var v := Top(arg);
      if !GoodVarRef(v, scope) then Fail(VarRefError(v, scope, "."), |arg| - 1)
      else Ok(Drop(arg, 1) + [scope[v.k]], scope, false)
    case Store =>
      var v := Top(arg);
      if !GoodVarRef(v, scope) then Fail(VarRefError(v, scope, " (2)"), |arg| - 2)
      else Ok(Drop(arg, 2), scope[v.k := Below(arg, 1)], false)
    case Pop => Ok(Drop(arg, 1), scope, false)
    case Dup =>
      if |arg| >= STACK_SIZE then Fail("Stack Overflow!", |arg|)
      else Ok(arg + [Top(arg)], scope, false)
    case Swap => Ok(Drop(arg, 2) + [Top(arg), Below(arg, 1)], scope, false)
    case Rot => Ok(Drop(arg, 3) + [Below(arg, 1), Top(arg), Below(arg, 2)], scope, false)
    case Not => Ok(Drop(arg, 1) + [Truth(IsFalse(Top(arg)))], scope, false)
    case Equal =>
      if !Top(arg).Int? || !Below(arg, 1).Int? then Fail("Invalid argument type.", |arg| - 2)
      else Ok(Drop(arg, 2) + [Truth(Below(arg, 1).n == Top(arg).n)], scope, false)
    case Strcmp =>
      if !Top(arg).Str? || !Below(arg, 1).Str? then Fail("Non-string argument.", |arg| - 2)
      else Ok(Drop(arg, 2) + [Int(StrOrder(Below(arg, 1).s, Top(arg).s))], scope, false)
    case Incr => Bump(arg, scope, 1)
    case Decr => Bump(arg, scope, -1)
    case Math(op) =>
      if !Top(arg).Int? || !Below(arg, 1).Int? then Fail("Invalid argument type.", |arg| - 2)
      else Ok(Drop(arg, 2) + [Int(Arith(op, Below(arg, 1).n, Top(arg).n))], scope, false)
    case Abort =>
      if !Top(arg).Str? then Fail("Invalid argument", |arg| - 1) else Fail(Top(arg).s, |arg| - 1)
  }

  /** DUP tests only that the operand exists, not that it lies above the protected depth. */
  function PrimFloor(p: Prim, floor: nat): nat {
    if p == Dup then 0 else floor
  }

  function ExecLocal(i: Inst, arg: seq<Value>, scope: Scope, floor: nat): Effect
    requires Local(i)
  {
    match i
    case PushInt(n) => Push(arg, scope, Int(n))
    case PushStr(s) => Push(arg, scope, Str(s))
    case PushSVar(k) => Push(arg, scope, SVar(k))
    case SVarAt(k) =>
      if |arg| >= STACK_SIZE then Fail("Stack overflow.", |arg|)
      else if k >= |scope| then Fail("Scoped variable number out of range.", |arg|)
      else Ok(arg + [scope[k]], scope, false)
    case SVarAtClear(k) =>
      if |arg| >= STACK_SIZE then Fail("Stack overflow.", |arg|)
      else if k >= |scope| then Fail("Scoped variable number out of range.", |arg|)
      else Ok(arg + [scope[k]], scope[k := Int(0)], false)
    case SVarBang(k) =>
      if Lacks(arg, floor, 1) then Fail(LackMsg(arg, 1, "Stack Underflow."), |arg|)
      else if k >= |scope| then Fail("Scoped variable number out of range.", |arg|)
      else Ok(Drop(arg, 1), scope[k := Top(arg)], false)
    case If(_) =>
      if Lacks(arg, floor, 1) then Fail(LackMsg(arg, 1, "Stack Underflow."), |arg|)
      else Ok(Drop(arg, 1), scope, IsFalse(Top(arg)))
    case Primitive(p) =>
      if Lacks(arg, PrimFloor(p, floor), Arity(p)) then Fail(LackMsg(arg, Arity(p), "Stack underflow."), |arg|)
      else ApplyPrim(p, arg, scope)
  }

  /** Instructions that name an address. */
  predicate HasTarget(i: Inst) {
    i.If? || i.Jmp? || i.Exec? || i.Try?
  }

  function SetTarget(i: Inst, t: nat): Inst {
    match i
    case If(_) => If(t)
    case Jmp(_) => Jmp(t)
    case Exec(_) => Exec(t)
    case Try(_) => Inst.Try(t)
    case _ => i
  }

  // ----- one turn of the interpreter loop -----

  function Floor(trys: seq<TryRec>): nat {
    if trys == [] then 0 else trys[|trys| - 1].depth
  }

  /** scopedvar_get(fr, 0, k) sees no variable at all when no level is active. */
  function TopScope(svars: seq<Scope>): Scope {
    if svars == [] then [] else svars[|svars| - 1]
  }

  function SetTopScope(svars: seq<Scope>, scope: Scope): seq<Scope> {
    if svars == [] then [] else svars[..|svars| - 1] + [scope]
  }

  /** scopedvar_poplevel, n times; it does nothing on an empty list. */
  function PopScopes(svars: seq<Scope>, n: nat): seq<Scope> {
    if n <= |svars| then svars[..|svars| - n] else []
  }

  /** An error: without a TRY the program ends. With one, calls made since the TRY are dropped,
      each with one scope, and control passes to the handler; the TRY record stays in place. */
  function Raise(s: State, msg: string, kept: nat): Config {
    if s.trys == [] then Dead(msg)
    else
      var t := s.trys[|s.trys| - 1];
      var level := if t.level < |s.sys| then t.level else |s.sys|;
      Live(State(
        t.handler,
        if kept <= |s.arg| then s.arg[..kept] else s.arg,
        s.sys[..level],
        PopScopes(s.svars, |s.sys| - level),
        s.trys,
        msg))
  }

  function LocalStep(i: Inst, s: State): Config
    requires Local(i)
  {
    match ExecLocal(i, s.arg, TopScope(s.svars), Floor(s.trys))
    case Ok(arg, scope, jump) =>
      Live(s.(pc := if jump && i.If? then i.target else s.pc + 1, arg := arg,
              svars := SetTopScope(s.svars, scope)))
    case Fail(msg, kept) => Raise(s, msg, kept)
  }

  /** The scope a function starts with: its arguments, then zeros. */
  function NewScope(arg: seq<Value>, args: nat, vars: nat): Scope
    requires args <= |arg|
  {
    arg[|arg| - args..] + seq(if vars > args then vars - args else 0, _ => Int(0))
  }

  function HeaderStep(args: nat, vars: nat, s: State): Config {
    if Lacks(s.arg, Floor(s.trys), args) then Raise(s, LackMsg(s.arg, args, "Stack Underflow."), |s.arg|)
    else Live(s.(pc := s.pc + 1, arg := Drop(s.arg, args),
                 svars := s.svars + [NewScope(s.arg, args, vars)]))
  }

  function TryStep(handler: nat, s: State): Config {
    if Lacks(s.arg, Floor(s.trys), 1) then Raise(s, LackMsg(s.arg, 1, "Stack Underflow."), |s.arg|)
    else
      var v := Top(s.arg);
      var arg := Drop(s.arg, 1);
      if !v.Int? || v.n < 0 then Raise(s, "Argument is not a positive integer.", |arg|)
      else if s.trys != [] && |arg| - Floor(s.trys) < v.n then Raise(s, "Stack protection fault.", |arg|)
      else if v.n > |arg| then Raise(s, "Stack Underflow.", |arg|)
      else Live(s.(pc := s.pc + 1, arg := arg,
                   trys := s.trys + [TryRec(|arg| - v.n, |s.sys|, handler)]))
  }

  function CatchStep(s: State): Config {
    if s.trys == [] then Dead("Internal error.  TRY stack underflow.")
    else
      var depth := Floor(s.trys);
      var arg := if |s.arg| > depth then s.arg[..depth] else s.arg;
      Live(s.(pc := s.pc + 1, arg := arg + [Str(s.err)], trys := s.trys[..|s.trys| - 1], err := ""))
  }

  function TryPopStep(s: State): Config {
    if s.trys == [] then Dead("Internal error; TRY stack underflow.")
    else if Lacks(s.arg, Floor(s.trys), 0) then Raise(s, "Stack protection fault.", |s.arg|)
    else Live(s.(pc := s.pc + 1, trys := s.trys[..|s.trys| - 1]))
  }

  function RetStep(s: State): Config
    requires |s.sys| > 0
  {
    Live(s.(pc := s.sys[|s.sys| - 1], sys := s.sys[..|s.sys| - 1], svars := PopScopes(s.svars, 1)))
  }

  function ExecStep(target: nat, s: State): Config {
    if |s.sys| >= STACK_SIZE then Raise(s, "System Stack Overflow", |s.arg|)
    else Live(s.(pc := target, sys := s.sys + [s.pc + 1]))
  }

  /** One instruction. Running off the end of the program is undefined in C; here it is an
      uncaught error. */
  function StepState(code: Code, s: State): Config
    requires |s.sys| > 0
  {
    if s.pc >= |code| then Dead("wild pc")
    else
      var i := code[s.pc];
      if Local(i) then LocalStep(i, s)
      else match i
        case Function(args, vars) => HeaderStep(args, vars, s)
        case Exec(t) => ExecStep(t, s)
        case Jmp(t) => Live(s.(pc := t))
        case Try(h) => TryStep(h, s)
        case Ret => RetStep(s)
        case TryPop => TryPopStep(s)
        case Catch => CatchStep(s)
  }

  /** The instruction is a function header that, inside a TRY, finds too few arguments above the
      protected depth. */
  predicate HeaderFails(code: Code, s: State) {
    s.pc < |code| && s.trys != [] && code[s.pc].Function? && Lacks(s.arg, Floor(s.trys), code[s.pc].args)
  }

  function Step(code: Code, c: Config): Config {
    if Terminal(c) then c else StepState(code, c.st)
  }

  function Steps(code: Code, c: Config, n: nat): Config
    decreases n
  {
    if n == 0 then c else Steps(code, Step(code, c), n - 1)
  }

  // ----- runs -----

  lemma {:induction false} StepsAdd(code: Code, c: Config, m: nat, n: nat)
    ensures Steps(code, c, m + n) == Steps(code, Steps(code, c, m), n)
    decreases m
  {
    if m > 0 {
      StepsAdd(code, Step(code, c), m - 1, n);
    }
  }

  lemma {:induction false} TerminalStays(code: Code, c: Config, n: nat)
    requires Terminal(c)
    ensures Steps(code, c, n) == c
  {
    if n > 0 {
      TerminalStays(code, c, n - 1);
    }
  }

  /** The run from c ends, in r. */
  ghost predicate Ends(code: Code, c: Config, r: Config) {
    Terminal(r) && exists n: nat :: Steps(code, c, n) == r
  }

  lemma EndsUnique(code: Code, c: Config, r: Config, r': Config)
    requires Ends(code, c, r) && Ends(code, c, r')
    ensures r == r'
  {
    var m: nat :| Steps(code, c, m) == r;
    var n: nat :| Steps(code, c, n) == r';
    StepsAdd(code, c, m, n);
    StepsAdd(code, c, n, m);
    TerminalStays(code, r, n);
    TerminalStays(code, r', m);
    assert m + n == n + m;
  }
}
