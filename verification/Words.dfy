/** What the words leave: for every primitive the stack and the scope it makes of those it finds, in plain
numbers, and what the optimizer's constants are. */
module Words {
  import opened Machine
  import opened Source
  import opened Blocks
  import opened Rules
  import opened CInts

  const TURN: int := 0x1_0000_0000

  predicate FitsInt(n: int) {
    -0x8000_0000 <= n < 0x8000_0000
  }

  /** r is the 32-bit int that is whole turns away from n. */
  predicate Turned(n: int, r: int) {
    FitsInt(r) && (n - r) % TURN == 0
  }

  lemma FittingTurned(n: int, r: int)
    requires Turned(n, r) && FitsInt(n)
    ensures r == n
  {}

  /** q and x are the quotient and the remainder in C: the remainder is smaller than the divisor and never has
      the other sign than the dividend. */
  predicate Divided(m: int, n: int, q: int, x: int) {
    && m == n * q + x
    && (if n > 0 then -n < x < n else n < x < -n)
    && (x > 0 ==> m > 0) && (x < 0 ==> m < 0)
  }

  /** There is only one such pair. */
  lemma DividedOnce(m: int, n: int, q: int, x: int, q': int, x': int)
    requires n != 0 && Divided(m, n, q, x) && Divided(m, n, q', x')
    ensures q == q' && x == x'
  {
    assert n * (q - q') == x' - x;
    NoMultiple(n, q - q', x' - x);
  }

  /** Only 0 is a multiple of n on the near side of n and of -n. */
  lemma NoMultiple(n: int, k: int, d: int)
    requires n * k == d && (if n > 0 then -n < d < n else n < d < -n)
    ensures k == 0
  {
    if k != 0 {
      Beyond(n, k);
    }
  }

  lemma Beyond(n: int, k: int)
    requires n != 0 && k != 0
    ensures if (n > 0) == (k > 0) then n * k >= n && n * k >= -n else n * k <= n && n * k <= -n
  {}

  lemma QuotientIs(m: int, n: int)
    requires n != 0
    ensures Divided(m, n, TruncDiv(m, n), TruncMod(m, n))
  {
    hide TruncDiv, TruncMod;
    DivisionLaw(m, n);
  }

  /** What an arithmetic word makes of m and n. */
  ghost predicate Computes(op: MathOp, m: int, n: int, r: int) {
    match op
    case Add => Turned(m + n, r)
    case Sub => Turned(m - n, r)
    case Mul => Turned(m * n, r)
    case Div => if n == 0 then r == 0 else exists q: int, x: int :: Divided(m, n, q, x) && Turned(q, r)
    case Mod => if n == 0 then r == 0 else exists q: int, x: int :: Divided(m, n, q, x) && Turned(x, r)
  }

  lemma WrapTurned(n: int)
    ensures Turned(n, Wrap(n))
  {
    WrapIs(n);
  }

  lemma {:induction false} ArithComputes(op: MathOp, m: int, n: int)
    ensures Computes(op, m, n, Arith(op, m, n))
  {
    hide Wrap, Turned, Divided, TruncDiv, TruncMod;
    match op
    case Add => WrapTurned(m + n);
    case Sub => WrapTurned(m - n);
    case Mul => WrapTurned(m * n);
    case Div =>
      if n != 0 {
        QuotientIs(m, n);
        WrapTurned(TruncDiv(m, n));
      }
    case Mod =>
      if n != 0 {
        QuotientIs(m, n);
        WrapTurned(TruncMod(m, n));
      }
  }

  lemma {:induction false} MathRuns(op: MathOp, m: int, n: int, low: seq<Value>, scope: Scope, floor: nat)
    requires |low| + 2 <= STACK_SIZE && floor <= |low|
    ensures
      var ws := [PushInt(m), PushInt(n), Primitive(Math(op))];
      Straight(ws) && RunBlock(ws, low, scope, floor) == Ok(low + [Int(Arith(op, m, n))], scope, false)
  {
    hide Arith, RunBlock, StrOrder, Wrap;
    TripleRun(PushInt(m), PushInt(n), Primitive(Math(op)), low, scope, floor);
    PairRun(PushInt(n), Primitive(Math(op)), low + [Int(m)], scope, floor);
    assert (low + [Int(m)] + [Int(n)])[..|low|] == low;
  }

  /** m n and an operator: the sum, the difference and the product up to whole turns, the quotient and the
      remainder as C has them, and 0 for a divisor of 0. */
  lemma {:induction false} MathLeaves(op: MathOp, m: int, n: int, low: seq<Value>, scope: Scope, floor: nat)
    returns (r: int)
    requires |low| + 2 <= STACK_SIZE && floor <= |low|
    ensures
      var ws := [PushInt(m), PushInt(n), Primitive(Math(op))];
      Straight(ws) && RunBlock(ws, low, scope, floor) == Ok(low + [Int(r)], scope, false)
    ensures Computes(op, m, n, r)
  {
    hide RunBlock, Computes;
    r := Arith(op, m, n);
    MathRuns(op, m, n, low, scope, floor);
    ArithComputes(op, m, n);
  }

  /** The quotient when it fits, and the remainder when it does. */
  lemma {:induction false} DivideLeaves(m: int, n: int, q: int, x: int, low: seq<Value>, scope: Scope, floor: nat)
    requires n != 0 && Divided(m, n, q, x) && |low| + 2 <= STACK_SIZE && floor <= |low|
    ensures
      var ws := [PushInt(m), PushInt(n), Primitive(Math(Div))];
      Straight(ws) && (FitsInt(q) ==> RunBlock(ws, low, scope, floor) == Ok(low + [Int(q)], scope, false))
    ensures
      var ws := [PushInt(m), PushInt(n), Primitive(Math(Mod))];
      Straight(ws) && (FitsInt(x) ==> RunBlock(ws, low, scope, floor) == Ok(low + [Int(x)], scope, false))
  {
    hide RunBlock, Divided, FitsInt, Turned;
    var r := MathLeaves(Div, m, n, low, scope, floor);
    var q0: int, x0: int :| Divided(m, n, q0, x0) && Turned(q0, r);
    DividedOnce(m, n, q, x, q0, x0);
    if FitsInt(q) {
      FittingTurned(q, r);
    }
    var t := MathLeaves(Mod, m, n, low, scope, floor);
    var q1: int, x1: int :| Divided(m, n, q1, x1) && Turned(x1, t);
    DividedOnce(m, n, q, x, q1, x1);
    if FitsInt(x) {
      FittingTurned(x, t);
    }
  }

  /** The constant the optimizer puts in the place of m n and an operator, and when it does. */
  lemma {:induction false} FoldLeaves(op: MathOp, m: int, n: int, rest: Code, free: nat) returns (r: int)
    requires 2 <= free < 3 + |rest|
    ensures
      Pick([PushInt(m), PushInt(n), Primitive(Math(op))] + rest, free)
      == if n == 0 && (op == Div || op == Mod) then Keep else Fuse(3, [PushInt(r)])
    ensures Computes(op, m, n, r)
  {
    hide Computes, Arith;
    r := Arith(op, m, n);
    ArithComputes(op, m, n);
    var a := [PushInt(m), PushInt(n), Primitive(Math(op))] + rest;
    assert a[0] == PushInt(m) && a[1] == PushInt(n) && a[2] == Primitive(Math(op));
  }

  // ----- the other words -----

  /** False is 0 and the empty string. */
  predicate Falsy(v: Value) {
    v == Int(0) || v == Str("")
  }

  lemma {:induction false} StackLeaves(low: seq<Value>, x: Value, y: Value, z: Value, scope: Scope, floor: nat)
    requires floor <= |low| && |low| + 1 < STACK_SIZE
    ensures ExecLocal(Primitive(Pop), low + [x], scope, floor) == Ok(low, scope, false)
    ensures ExecLocal(Primitive(Dup), low + [x], scope, floor) == Ok(low + [x, x], scope, false)
    ensures ExecLocal(Primitive(Swap), low + [x, y], scope, floor) == Ok(low + [y, x], scope, false)
    ensures ExecLocal(Primitive(Rot), low + [x, y, z], scope, floor) == Ok(low + [y, z, x], scope, false)
  {
    assert (low + [x])[..|low|] == low && low + [x] + [x] == low + [x, x];
    assert (low + [x, y])[..|low|] == low && (low + [x, y, z])[..|low|] == low;
  }

  lemma {:induction false} TestLeaves(low: seq<Value>, v: Value, m: int, n: int, t: nat, scope: Scope, floor: nat)
    requires floor <= |low|
    ensures ExecLocal(Primitive(Not), low + [v], scope, floor)
         == Ok(low + [Int(if Falsy(v) then 1 else 0)], scope, false)
    ensures ExecLocal(Primitive(Equal), low + [Int(m), Int(n)], scope, floor)
         == Ok(low + [Int(if m == n then 1 else 0)], scope, false)
    ensures ExecLocal(If(t), low + [v], scope, floor) == Ok(low, scope, Falsy(v))
  {
    assert (low + [v])[..|low|] == low && (low + [Int(m), Int(n)])[..|low|] == low;
  }

  /** ++ and -- on an int, and on a variable that holds one. */
  lemma {:induction false} CountLeaves(low: seq<Value>, k: nat, n: int, scope: Scope, floor: nat) returns (r: int, d: int)
    requires floor <= |low|
    ensures Turned(n + 1, r) && Turned(n - 1, d)
    ensures ExecLocal(Primitive(Incr), low + [Int(n)], scope, floor) == Ok(low + [Int(r)], scope, false)
    ensures ExecLocal(Primitive(Decr), low + [Int(n)], scope, floor) == Ok(low + [Int(d)], scope, false)
    ensures k <= MAX_VAR && k < |scope| && scope[k] == Int(n) ==>
              && ExecLocal(Primitive(Incr), low + [SVar(k)], scope, floor) == Ok(low, scope[k := Int(r)], false)
              && ExecLocal(Primitive(Decr), low + [SVar(k)], scope, floor) == Ok(low, scope[k := Int(d)], false)
  {
    hide Wrap;
    r, d := Wrap(n + 1), Wrap(n - 1);
    WrapTurned(n + 1);
    WrapTurned(n - 1);
    assert (low + [Int(n)])[..|low|] == low && (low + [SVar(k)])[..|low|] == low;
  }

  /** A variable is fetched, stored to, and fetched and cleared. */
  lemma {:induction false} VariableLeaves(low: seq<Value>, k: nat, v: Value, scope: Scope, floor: nat)
    requires floor <= |low| < STACK_SIZE && k < |scope| && k < MAX_VAR
    ensures ExecLocal(Primitive(Fetch), low + [SVar(k)], scope, floor) == Ok(low + [scope[k]], scope, false)
    ensures ExecLocal(Primitive(Store), low + [v, SVar(k)], scope, floor) == Ok(low, scope[k := v], false)
    ensures ExecLocal(SVarAt(k), low, scope, floor) == Ok(low + [scope[k]], scope, false)
    ensures ExecLocal(SVarBang(k), low + [v], scope, floor) == Ok(low, scope[k := v], false)
    ensures ExecLocal(SVarAtClear(k), low, scope, floor) == Ok(low + [scope[k]], scope[k := Int(0)], false)
  {
    assert (low + [SVar(k)])[..|low|] == low && (low + [v, SVar(k)])[..|low|] == low && (low + [v])[..|low|] == low;
  }

  /** s comes before t: after a common part s ends first, or its next character is less. */
  ghost predicate ComesFirst(s: string, t: string, i: nat) {
    i <= |s| && i < |t| && s[..i] == t[..i] && (i < |s| ==> s[i] < t[i])
  }

  lemma {:induction false} OrderFirst(s: string, t: string) returns (i: nat)
    ensures StrOrder(s, t) == -1 || StrOrder(s, t) == 0 || StrOrder(s, t) == 1
    ensures StrOrder(s, t) < 0 ==> ComesFirst(s, t, i)
    ensures StrOrder(s, t) > 0 ==> ComesFirst(t, s, i)
    ensures StrOrder(s, t) == 0 ==> s == t
    decreases |s|
  {
    i := 0;
    if s != [] && t != [] && s[0] == t[0] {
      var j := OrderFirst(s[1..], t[1..]);
      i := j + 1;
      FirstShift(s, t, j);
      FirstShift(t, s, j);
      assert s == [s[0]] + s[1..] && t == [t[0]] + t[1..];
    }
  }

  lemma FirstShift(s: string, t: string, j: nat)
    requires s != [] && t != [] && s[0] == t[0]
    ensures ComesFirst(s[1..], t[1..], j) ==> ComesFirst(s, t, j + 1)
  {
    if ComesFirst(s[1..], t[1..], j) {
      assert s[..j + 1] == [s[0]] + s[1..][..j] && t[..j + 1] == [t[0]] + t[1..][..j];
    }
  }

  lemma FirstOnce(s: string, t: string, i: nat, j: nat)
    requires ComesFirst(s, t, i)
    ensures s != t && !ComesFirst(t, s, j)
  {
    hide ComesFirst;
    FirstAt(s, t, i, i);
    FirstAt(s, t, i, if j < i then j else i);
    if ComesFirst(t, s, j) {
      FirstAt(t, s, j, if j < i then j else i);
    }
  }

  /** Up to where s comes before t, the two have the same characters. */
  lemma FirstAt(s: string, t: string, i: nat, k: nat)
    requires ComesFirst(s, t, i) && k <= i
    ensures k < |t| && (k < i ==> k < |s| && s[k] == t[k])
    ensures k == i ==> k == |s| || (k < |s| && s[k] < t[k])
  {
    if k < i {
      assert s[..i][k] == t[..i][k];
    }
  }

  /** strcmp: negative exactly when the first string comes first, 0 when they are the same. */
  lemma {:induction false} StrcmpLeaves(low: seq<Value>, s: string, t: string, scope: Scope, floor: nat) returns (r: int)
    requires floor <= |low|
    ensures ExecLocal(Primitive(Strcmp), low + [Str(s), Str(t)], scope, floor) == Ok(low + [Int(r)], scope, false)
    ensures r < 0 <==> exists i: nat :: ComesFirst(s, t, i)
    ensures r > 0 <==> exists i: nat :: ComesFirst(t, s, i)
    ensures r == 0 <==> s == t
    ensures -1 <= r <= 1
  {
    hide ComesFirst, StrOrder;
    assert (low + [Str(s), Str(t)])[..|low|] == low;
    r := StrOrder(s, t);
    var i := OrderFirst(s, t);
    if j: nat :| ComesFirst(s, t, j) {
      FirstOnce(s, t, j, i);
    }
    if j: nat :| ComesFirst(t, s, j) {
      FirstOnce(t, s, j, i);
    }
  }

  // ----- procedures, tests and TRY -----

  /** The scope of a call holds the arguments in the order they were pushed, and zeros behind them. */
  lemma {:induction false} ScopeIs(low: seq<Value>, given: seq<Value>, vars: nat)
    ensures
      var scope := NewScope(low + given, |given|, vars);
      && Drop(low + given, |given|) == low
      && |scope| == (if vars > |given| then vars else |given|) && scope[..|given|] == given
      && forall k :: |given| <= k < |scope| ==> scope[k] == Int(0)
  {
    assert (low + given)[|low|..] == given && (low + given)[..|low|] == low;
  }

  /** IF takes the first branch on anything but 0 and the empty string, UNTIL ends and WHILE goes on there. */
  lemma {:induction false} TestMeans(p: Prog, t: Cmd, e: Cmd, low: seq<Value>, v: Value, scope: Scope, g: Guard, fuel: nat)
    requires g.floor <= |low|
    ensures
      var l, l' := View(low + [v], scope), View(low, scope);
      && Eval(p, IfElse(t, e), l, g, fuel) == Eval(p, if Falsy(v) then e else t, l', g, fuel)
      && Eval(p, IfThen(t), l, g, fuel) == (if Falsy(v) then Norm(l') else Eval(p, t, l', g, fuel))
      && Eval(p, LoopUntil(Skip), l, g, 0) == (if Falsy(v) then Timeout else Norm(l'))
      && Eval(p, While, l, g, fuel) == (if Falsy(v) then Brk(l') else Norm(l'))
  {
    assert (low + [v])[..|low|] == low;
    assert Eval(p, Skip, View(low + [v], scope), g, 0) == Norm(View(low + [v], scope));
  }

  /** TRY enters its block exactly when its count is there, is an int that is not negative, and no more than
      the items that the TRY around it leaves unprotected; it then protects all but that many. */
  lemma {:induction false} TryStartsIff(code: Code, s: State, handler: nat)
    requires s.pc < |code| && code[s.pc] == Inst.Try(handler) && |s.sys| > 0
    ensures
      var c, room := Step(code, Live(s)), |s.arg| - 1 - Floor(s.trys);
      && ((c.Live? && |c.st.trys| == |s.trys| + 1) <==>
          |s.arg| > 0 && room >= 0 && s.arg[|s.arg| - 1].Int? && 0 <= s.arg[|s.arg| - 1].n <= room)
      && (c.Live? && |c.st.trys| == |s.trys| + 1 ==>
          && c.st.pc == s.pc + 1 && c.st.arg == s.arg[..|s.arg| - 1]
          && c.st.trys == s.trys + [TryRec(|s.arg| - 1 - s.arg[|s.arg| - 1].n, |s.sys|, handler)])
  {
    hide Raise, LocalStep, HeaderStep, CatchStep, TryPopStep, RetStep, ExecStep;
    RaisedTrys(s);
  }

  lemma RaisedTrys(s: State)
    ensures forall msg, kept :: Raise(s, msg, kept).Live? ==> Raise(s, msg, kept).st.trys == s.trys
  {}
}
