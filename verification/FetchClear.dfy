/** Fetch and clear: a scoped fetch that is always followed by a store to the same variable may clear
the variable, because nothing can look at it in between. */
module FetchClear {
  import opened Machine
  import opened Layout
  import opened Discipline
  import opened Blocks

  /** An instruction that does not fetch or store variable k, nor start another function. ++ and -- may
      reach it through a reference. */
  predicate Quiet(i: Inst, k: nat) {
    match i
    case Primitive(p) => p != Fetch && p != Store
    case SVarAt(j) => j != k
    case SVarAtClear(j) => j != k
    case SVarBang(j) => j != k
    case Function(_, _) => false
    case _ => true
  }

  /** The fetch at f, the store at g, and the code between them: it does not look at the variable,
      its jumps stay inside, and no TRY of the procedure is active there. */
  ghost predicate Region(c: Code, dep: seq<nat>, f: nat, g: nat, k: nat)
    requires |dep| == |c|
  {
    && f < g < |c| && c[f] == SVarAt(k) && c[g] == SVarBang(k)
    && (forall i :: f <= i <= g ==> dep[i] == 0)
    && (forall i :: f < i < g ==> Quiet(c[i], k))
    && (forall i :: f < i < g && (c[i].If? || c[i].Jmp? || c[i].Try?) ==> f < c[i].target < g)
  }

  predicate In(f: nat, g: nat, x: nat) {
    f < x <= g
  }

  /** The scopes differ at most in variable k. */
  ghost predicate Alike(k: nat, a: Scope, b: Scope) {
    |a| == |b| && forall i :: 0 <= i < |a| && i != k ==> a[i] == b[i]
  }

  /** Where the j-th active call continues. */
  function ResumeAt(s: State, j: nat): nat {
    if j + 1 < |s.sys| then s.sys[j + 1] else s.pc
  }

  /** Where they differ the variable holds an int, which is all that ++ and -- ask of it. */
  ghost predicate Cleared(k: nat, a: Scope, b: Scope) {
    Alike(k, a, b) && (a == b || (k < |b| && b[k].Int?))
  }

  ghost predicate ScopeSame(f: nat, g: nat, k: nat, at: nat, a: Scope, b: Scope) {
    Cleared(k, a, b) && (!In(f, g, at) ==> a == b)
  }

  /** The two states agree, except that a call between the fetch and the store may have the variable
      cleared. */
  ghost predicate Same(f: nat, g: nat, k: nat, s: State, s': State) {
    && s' == s.(svars := s'.svars) && |s'.svars| == |s.svars|
    && forall j :: 0 <= j < |s.svars| ==> ScopeSame(f, g, k, ResumeAt(s, j), s.svars[j], s'.svars[j])
  }

  ghost predicate SameConfig(f: nat, g: nat, k: nat, c: Config, c': Config) {
    (c.Dead? ==> c' == c) && (c.Live? ==> c'.Live? && Same(f, g, k, c.st, c'.st))
  }

  lemma AlikeSelf(k: nat, a: Scope)
    ensures Alike(k, a, a)
  {}

  // ----- errors -----

  /** The call a TRY record belongs to is inside that TRY. */
  lemma {:induction false} OwnerInside(code: Code, dep: seq<nat>, rs: seq<nat>, trys: seq<TryRec>)
    requires |dep| == |code| && TrysOk(code, dep, rs, trys) && trys != []
    ensures
      var level := trys[|trys| - 1].level;
      0 < level <= |rs| && rs[level - 1] < |code| && dep[rs[level - 1]] > 0
    decreases |rs|
  {
    var at := rs[|rs| - 1];
    if dep[at] == 0 {
      assert trys[..|trys| - 0] == trys;
      OwnerInside(code, dep, rs[..|rs| - 1], trys);
    } else {
      var group := trys[|trys| - dep[at]..];
      assert group[dep[at] - 1] == trys[|trys| - 1];
    }
  }

  lemma RaiseSame(code: Code, dep: seq<nat>, f: nat, g: nat, k: nat, s: State, s': State, msg: string, kept: nat)
    requires |dep| == |code| && Inv(code, dep, s) && !code[s.pc].Function? && Same(f, g, k, s, s')
    requires Region(code, dep, f, g, k)
    ensures SameConfig(f, g, k, Raise(s, msg, kept), Raise(s', msg, kept))
  {
    hide DepthsOk, ReturnsOk, TrysOk, Quiet;
    if s.trys != [] {
      var rs := Resumes(s);
      OwnerInside(code, dep, rs, s.trys);
      var level := s.trys[|s.trys| - 1].level;
      var r, r' := Raise(s, msg, kept).st, Raise(s', msg, kept).st;
      assert r.svars == s.svars[..level] && r'.svars == s'.svars[..level];
      forall j | 0 <= j < level ensures ScopeSame(f, g, k, ResumeAt(r, j), r.svars[j], r'.svars[j]) {
        assert ScopeSame(f, g, k, ResumeAt(s, j), s.svars[j], s'.svars[j]);
        if j + 1 == level {
          assert rs[level - 1] == ResumeAt(s, j);
        }
      }
    }
  }

  // ----- instructions between the fetch and the store -----

  /** A quiet instruction does the same whatever the variable held, unless it is a ++ or -- that fails. */
  lemma QuietBlind(i: Inst, k: nat, arg: seq<Value>, a: Scope, b: Scope, floor: nat)
    requires Machine.Local(i) && Quiet(i, k) && Cleared(k, a, b) && SuitedLocal(i, arg, a, floor)
    ensures
      var r, r' := ExecLocal(i, arg, a, floor), ExecLocal(i, arg, b, floor);
      && (r.Ok? ==> r'.Ok? && r'.arg == r.arg && r'.jump == r.jump && Cleared(k, r.scope, r'.scope))
      && (r.Fail? ==> r' == r)
  {
    hide ApplyPrim;
    if i.Primitive? && !Lacks(arg, PrimFloor(i.p, floor), Arity(i.p)) {
      PrimBlind(i.p, k, arg, a, b);
    }
  }

  lemma PrimBlind(p: Prim, k: nat, arg: seq<Value>, a: Scope, b: Scope)
    requires p != Fetch && p != Store && Cleared(k, a, b) && |arg| >= Arity(p)
    requires p == Incr || p == Decr ==> ApplyPrim(p, arg, a).Ok?
    ensures
      var r, r' := ApplyPrim(p, arg, a), ApplyPrim(p, arg, b);
      && (r.Ok? ==> r'.Ok? && r'.arg == r.arg && r'.jump == r.jump && Cleared(k, r.scope, r'.scope))
      && (r.Fail? ==> r' == r)
  {
    hide Arith, StrOrder, Wrap;
  }

  /** The store makes the scopes equal again. */
  lemma StoreMends(k: nat, arg: seq<Value>, a: Scope, b: Scope, floor: nat)
    requires Alike(k, a, b)
    ensures ExecLocal(SVarBang(k), arg, a, floor) == ExecLocal(SVarBang(k), arg, b, floor)
  {}

  /** The cleared fetch pushes the same value and leaves the scopes alike. */
  lemma FetchClears(k: nat, arg: seq<Value>, a: Scope, floor: nat)
    ensures
      var r, r' := ExecLocal(SVarAt(k), arg, a, floor), ExecLocal(SVarAtClear(k), arg, a, floor);
      && (r.Ok? ==> r'.Ok? && r'.arg == r.arg && r'.jump == r.jump && Cleared(k, r.scope, r'.scope))
      && (r.Fail? ==> r' == r)
  {}

  // ----- one step -----

  /** A local instruction whose two effects agree keeps the states the same. */
  lemma LocalSame(code: Code, dep: seq<nat>, f: nat, g: nat, k: nat, s: State, s': State, i: Inst, i': Inst)
    requires |dep| == |code| && Inv(code, dep, s) && !code[s.pc].Function? && Same(f, g, k, s, s')
    requires Region(code, dep, f, g, k)
    requires Machine.Local(i) && Machine.Local(i') && i'.If? == i.If? && (i.If? ==> i'.target == i.target)
    requires
      var r := ExecLocal(i, s.arg, TopScope(s.svars), Floor(s.trys));
      var r' := ExecLocal(i', s.arg, TopScope(s'.svars), Floor(s.trys));
      && (r.Ok? ==> r'.Ok? && r'.arg == r.arg && r'.jump == r.jump
                    && ScopeSame(f, g, k, if r.jump && i.If? then i.target else s.pc + 1, r.scope, r'.scope))
      && (r.Fail? ==> r' == r)
    ensures SameConfig(f, g, k, LocalStep(i, s), LocalStep(i', s'))
  {
    hide ExecLocal, Raise, ScopeSame, DepthsOk, ReturnsOk, TrysOk, Quiet;
    var r := ExecLocal(i, s.arg, TopScope(s.svars), Floor(s.trys));
    if r.Fail? {
      RaiseSame(code, dep, f, g, k, s, s', r.msg, r.kept);
    } else {
      var n := |s.svars| - 1;
      var t, t' := LocalStep(i, s).st, LocalStep(i', s').st;
      forall j | 0 <= j < |t.svars| ensures ScopeSame(f, g, k, ResumeAt(t, j), t.svars[j], t'.svars[j]) {
        if j < n {
          assert ScopeSame(f, g, k, ResumeAt(s, j), s.svars[j], s'.svars[j]);
        }
      }
    }
  }

  lemma TopSame(code: Code, dep: seq<nat>, f: nat, g: nat, k: nat, s: State, s': State)
    requires |dep| == |code| && Inv(code, dep, s) && !code[s.pc].Function? && Same(f, g, k, s, s')
    ensures ScopeSame(f, g, k, s.pc, TopScope(s.svars), TopScope(s'.svars))
  {
    hide ScopeSame, TrysOk;
    assert ScopeSame(f, g, k, ResumeAt(s, |s.svars| - 1), s.svars[|s.svars| - 1], s'.svars[|s.svars| - 1]);
  }

  lemma StepLocal(code: Code, dep: seq<nat>, f: nat, g: nat, k: nat, s: State, s': State)
    requires |dep| == |code| && Inv(code, dep, s) && Machine.Local(code[s.pc]) && Same(f, g, k, s, s')
    requires Region(code, dep, f, g, k) && Suited(code, Live(s))
    ensures SameConfig(f, g, k, LocalStep(code[s.pc], s), LocalStep(code[f := SVarAtClear(k)][s.pc], s'))
    ensures
      var r := ExecLocal(code[s.pc], s.arg, TopScope(s.svars), Floor(s.trys));
      var r' := ExecLocal(code[f := SVarAtClear(k)][s.pc], s.arg, TopScope(s'.svars), Floor(s.trys));
      r.Ok? == r'.Ok?
  {
    hide ExecLocal, TrysOk, DepthsOk, ReturnsOk, SameConfig, Same, LocalStep;
    TopSame(code, dep, f, g, k, s, s');
    var i, i' := code[s.pc], code[f := SVarAtClear(k)][s.pc];
    var a, b, floor := TopScope(s.svars), TopScope(s'.svars), Floor(s.trys);
    if s.pc == f {
      FetchClears(k, s.arg, a, floor);
    } else if s.pc == g {
      StoreMends(k, s.arg, a, b, floor);
    } else if f < s.pc < g {
      QuietBlind(i, k, s.arg, a, b, floor);
    }
    var r := ExecLocal(i, s.arg, a, floor);
    if r.Ok? {
      AlikeSelf(k, r.scope);
    }
    LocalSame(code, dep, f, g, k, s, s', i, i');
  }

  lemma StepCall(code: Code, dep: seq<nat>, f: nat, g: nat, k: nat, s: State, s': State)
    requires Typed(code, dep) && Inv(code, dep, s) && Same(f, g, k, s, s')
    requires code[s.pc].Exec? || code[s.pc].Function? || code[s.pc].Jmp? || code[s.pc].Ret?
    requires Region(code, dep, f, g, k) && !HeaderFails(code, s)
    ensures SameConfig(f, g, k, Step(code, Live(s)), Step(code[f := SVarAtClear(k)], Live(s')))
  {
    hide Raise, ScopeSame, DepthsOk, ReturnsOk, TrysOk, LocalStep, TryStep, CatchStep, TryPopStep, NewScope, TypedAt;
    var c' := code[f := SVarAtClear(k)];
    assert c'[s.pc] == code[s.pc];
    forall j | 0 <= j < |s.svars| ensures ScopeSame(f, g, k, ResumeAt(s, j), s.svars[j], s'.svars[j]) {}
    match code[s.pc] {
      case Function(args, vars) =>
        if Lacks(s.arg, Floor(s.trys), args) {
          RaisedDead(s);
          RaisedDead(s');
        } else {
          HeaderSame(code, dep, f, g, k, s, s', args, vars);
        }
      case Jmp(t) =>
        JumpSame(f, g, k, s, s', t);
      case Exec(t) =>
        if |s.sys| >= STACK_SIZE {
          RaiseSame(code, dep, f, g, k, s, s', "System Stack Overflow", |s.arg|);
        } else {
          ExecSame(f, g, k, s, s', t);
        }
      case Ret =>
        RetSame(f, g, k, s, s');
    }
  }

  lemma JumpSame(f: nat, g: nat, k: nat, s: State, s': State, t: nat)
    requires Same(f, g, k, s, s') && |s.svars| == |s.sys| && (In(f, g, s.pc) ==> In(f, g, t))
    ensures Same(f, g, k, s.(pc := t), s'.(pc := t))
  {
    forall j | 0 <= j < |s.svars| ensures ScopeSame(f, g, k, ResumeAt(s.(pc := t), j), s.svars[j], s'.svars[j]) {
      assert ScopeSame(f, g, k, ResumeAt(s, j), s.svars[j], s'.svars[j]);
    }
  }

  lemma HeaderSame(code: Code, dep: seq<nat>, f: nat, g: nat, k: nat, s: State, s': State, args: nat, vars: nat)
    requires |dep| == |code| && Inv(code, dep, s) && code[s.pc] == Function(args, vars) && Same(f, g, k, s, s')
    requires !Lacks(s.arg, Floor(s.trys), args)
    ensures SameConfig(f, g, k, HeaderStep(args, vars, s), HeaderStep(args, vars, s'))
  {
    hide ScopeSame, NewScope, TrysOk, DepthsOk, ReturnsOk;
    var t, t' := HeaderStep(args, vars, s).st, HeaderStep(args, vars, s').st;
    forall j | 0 <= j < |t.svars| ensures ScopeSame(f, g, k, ResumeAt(t, j), t.svars[j], t'.svars[j]) {
      if j < |s.svars| {
        assert ScopeSame(f, g, k, ResumeAt(s, j), s.svars[j], s'.svars[j]);
      } else {
        EqualSame(f, g, k, ResumeAt(t, j), t.svars[j]);
      }
    }
  }

  lemma EqualSame(f: nat, g: nat, k: nat, at: nat, a: Scope)
    ensures ScopeSame(f, g, k, at, a, a)
  {}

  lemma ExecSame(f: nat, g: nat, k: nat, s: State, s': State, t: nat)
    requires Same(f, g, k, s, s') && |s.svars| == |s.sys| && |s.sys| < STACK_SIZE && (In(f, g, s.pc) ==> In(f, g, s.pc + 1))
    ensures SameConfig(f, g, k, ExecStep(t, s), ExecStep(t, s'))
  {
    var r, r' := ExecStep(t, s).st, ExecStep(t, s').st;
    forall j | 0 <= j < |r.svars| ensures ScopeSame(f, g, k, ResumeAt(r, j), r.svars[j], r'.svars[j]) {
      assert ScopeSame(f, g, k, ResumeAt(s, j), s.svars[j], s'.svars[j]);
    }
  }

  lemma RetSame(f: nat, g: nat, k: nat, s: State, s': State)
    requires Same(f, g, k, s, s') && 0 < |s.sys| == |s.svars|
    ensures SameConfig(f, g, k, RetStep(s), RetStep(s'))
  {
    hide ScopeSame;
    var r, r' := RetStep(s).st, RetStep(s').st;
    forall j | 0 <= j < |r.svars| ensures ScopeSame(f, g, k, ResumeAt(r, j), r.svars[j], r'.svars[j]) {
      assert ScopeSame(f, g, k, ResumeAt(s, j), s.svars[j], s'.svars[j]);
    }
  }

  lemma StepTry(code: Code, dep: seq<nat>, f: nat, g: nat, k: nat, s: State, s': State)
    requires Typed(code, dep) && Inv(code, dep, s) && Same(f, g, k, s, s')
    requires code[s.pc].Try? || code[s.pc].TryPop? || code[s.pc].Catch?
    requires Region(code, dep, f, g, k)
    ensures SameConfig(f, g, k, Step(code, Live(s)), Step(code[f := SVarAtClear(k)], Live(s')))
  {
    hide Raise, ScopeSame, DepthsOk, ReturnsOk, TrysOk, LocalStep, HeaderStep, RetStep, ExecStep, Quiet, TypedAt;
    var c' := code[f := SVarAtClear(k)];
    assert c'[s.pc] == code[s.pc];
    TryOutside(code, dep, f, g, k, s.pc);
    match code[s.pc] {
      case Try(h) =>
        if Lacks(s.arg, Floor(s.trys), 1) {
          RaiseSame(code, dep, f, g, k, s, s', LackMsg(s.arg, 1, "Stack Underflow."), |s.arg|);
        } else if !Top(s.arg).Int? || Top(s.arg).n < 0 {
          RaiseSame(code, dep, f, g, k, s, s', "Argument is not a positive integer.", |s.arg| - 1);
        } else if s.trys != [] && |s.arg| - 1 - Floor(s.trys) < Top(s.arg).n {
          RaiseSame(code, dep, f, g, k, s, s', "Stack protection fault.", |s.arg| - 1);
        } else if Top(s.arg).n > |s.arg| - 1 {
          RaiseSame(code, dep, f, g, k, s, s', "Stack Underflow.", |s.arg| - 1);
        } else {
          JumpSame(f, g, k, s, s', s.pc + 1);
          SameLess(f, g, k, s.(pc := s.pc + 1), s'.(pc := s.pc + 1), TryStep(h, s).st, TryStep(h, s').st);
        }
      case TryPop =>
        RaiseSame(code, dep, f, g, k, s, s', "Stack protection fault.", |s.arg|);
        JumpSame(f, g, k, s, s', s.pc + 1);
        if s.trys != [] && !Lacks(s.arg, Floor(s.trys), 0) {
          SameLess(f, g, k, s.(pc := s.pc + 1), s'.(pc := s.pc + 1), TryPopStep(s).st, TryPopStep(s').st);
        }
      case Catch =>
        JumpSame(f, g, k, s, s', s.pc + 1);
        if s.trys != [] {
          SameLess(f, g, k, s.(pc := s.pc + 1), s'.(pc := s.pc + 1), CatchStep(s).st, CatchStep(s').st);
        }
    }
  }

  /** Same looks only at the program counter, the return stack and the scopes. */
  lemma SameLess(f: nat, g: nat, k: nat, s: State, s': State, t: State, t': State)
    requires Same(f, g, k, s, s') && t.pc == s.pc && t.sys == s.sys && t.svars == s.svars
    requires t' == t.(svars := s'.svars)
    ensures Same(f, g, k, t, t')
  {
    hide ScopeSame;
    forall j | 0 <= j < |t.svars| ensures ScopeSame(f, g, k, ResumeAt(t, j), t.svars[j], t'.svars[j]) {
      assert ScopeSame(f, g, k, ResumeAt(s, j), s.svars[j], s'.svars[j]);
    }
  }

  /** No TRY, TRYPOP or CATCH stands between the fetch and the store. */
  lemma TryOutside(code: Code, dep: seq<nat>, f: nat, g: nat, k: nat, i: nat)
    requires Typed(code, dep) && Region(code, dep, f, g, k) && i < |code|
    requires code[i].Try? || code[i].TryPop? || code[i].Catch?
    ensures !In(f, g, i)
  {
    assert TypedAt(code, dep, i);
  }

  /** One step of each program. */
  lemma StepSame(code: Code, dep: seq<nat>, f: nat, g: nat, k: nat, s: State, s': State)
    requires Typed(code, dep) && Inv(code, dep, s) && Same(f, g, k, s, s')
    requires Region(code, dep, f, g, k) && Suited(code, Live(s))
    ensures SameConfig(f, g, k, Step(code, Live(s)), Step(code[f := SVarAtClear(k)], Live(s')))
    ensures Suited(code[f := SVarAtClear(k)], Live(s'))
  {
    hide Raise, ScopeSame, DepthsOk, ReturnsOk, TrysOk, LocalStep, HeaderStep, RetStep, ExecStep, TryStep, CatchStep,
         TryPopStep, Quiet, TypedAt, SameConfig, ExecLocal, Region;
    RegionFetch(code, dep, f, g, k);
    var c' := code[f := SVarAtClear(k)];
    if Machine.Local(code[s.pc]) {
      StepLocal(code, dep, f, g, k, s, s');
    } else if code[s.pc].Try? || code[s.pc].TryPop? || code[s.pc].Catch? {
      StepTry(code, dep, f, g, k, s, s');
    } else {
      StepCall(code, dep, f, g, k, s, s');
    }
  }

  lemma RegionFetch(code: Code, dep: seq<nat>, f: nat, g: nat, k: nat)
    requires |dep| == |code| && Region(code, dep, f, g, k)
    ensures f < |code| && code[f] == SVarAt(k)
  {}

  // ----- whole runs -----

  lemma StepBoth(code: Code, dep: seq<nat>, f: nat, g: nat, k: nat, c: Config, c': Config)
    requires Typed(code, dep) && Region(code, dep, f, g, k)
    requires Good(code, dep, c) && SameConfig(f, g, k, c, c') && GoodRun(code, c)
    ensures f < |code|
    ensures SameConfig(f, g, k, Step(code, c), Step(code[f := SVarAtClear(k)], c'))
    ensures Good(code, dep, Step(code, c)) && GoodRun(code, Step(code, c))
  {
    RegionFetch(code, dep, f, g, k);
    hide Typed, Region, Inv, GoodRun, Suited, Step, Same, Steps;
    var code' := code[f := SVarAtClear(k)];
    SameTerminal(f, g, k, c, c');
    GoodRunFrom(code, c, 1);
    OneStep(code, c);
    if Terminal(c) {
      TerminalStep(code, c);
      TerminalStep(code', c');
    } else {
      GoodNow(code, c.st);
      SuitedHeader(code, c.st);
      StepSame(code, dep, f, g, k, c.st, c'.st);
      StepKeeps(code, dep, c.st);
    }
  }

  lemma {:induction false} RunSame(code: Code, dep: seq<nat>, f: nat, g: nat, k: nat, c: Config, c': Config, n: nat)
    requires Typed(code, dep) && Region(code, dep, f, g, k)
    requires Good(code, dep, c) && SameConfig(f, g, k, c, c') && GoodRun(code, c)
    ensures f < |code|
    ensures SameConfig(f, g, k, Steps(code, c, n), Steps(code[f := SVarAtClear(k)], c', n))
    ensures Good(code, dep, Steps(code, c, n))
    decreases n
  {
    hide Typed, Region, Good, GoodRun, Step, SameConfig;
    StepBoth(code, dep, f, g, k, c, c');
    if n > 0 {
      RunSame(code, dep, f, g, k, Step(code, c), Step(code[f := SVarAtClear(k)], c'), n - 1);
    }
  }

  lemma SuitedHeader(code: Code, s: State)
    requires Suited(code, Live(s))
    ensures !HeaderFails(code, s)
  {}

  lemma SameTerminal(f: nat, g: nat, k: nat, c: Config, c': Config)
    requires SameConfig(f, g, k, c, c')
    ensures Terminal(c) <==> Terminal(c')
    ensures Terminal(c) ==> ResultOf(c) == ResultOf(c')
  {}

  lemma SameSuited(code: Code, dep: seq<nat>, f: nat, g: nat, k: nat, c: Config, c': Config)
    requires Typed(code, dep) && Region(code, dep, f, g, k)
    requires Good(code, dep, c) && !Terminal(c) && SameConfig(f, g, k, c, c') && Suited(code, c)
    ensures Suited(code[f := SVarAtClear(k)], c')
  {
    hide Typed, Region, Inv, Suited, Step, Same;
    StepSame(code, dep, f, g, k, c.st, c'.st);
  }

  /** Turning the fetch into a fetch and clear refines the program: no later instruction can see the
      cleared value. */
  lemma ClearRefines(code: Code, dep: seq<nat>, f: nat, g: nat, k: nat, c: Config)
    requires Typed(code, dep) && Region(code, dep, f, g, k) && Good(code, dep, c)
    ensures f < |code| && Refines(code, c, code[f := SVarAtClear(k)], c)
  {
    RegionFetch(code, dep, f, g, k);
    hide Typed, Region, Good, Suited, Steps, Terminal, SameConfig;
    var code' := code[f := SVarAtClear(k)];
    SameSelf(f, g, k, c);
    if GoodRun(code, c) {
      forall n: nat | !Terminal(Steps(code', c, n)) ensures Suited(code', Steps(code', c, n)) {
        RunSame(code, dep, f, g, k, c, c, n);
        SameTerminal(f, g, k, Steps(code, c, n), Steps(code', c, n));
        SameSuited(code, dep, f, g, k, Steps(code, c, n), Steps(code', c, n));
      }
      forall r ensures Yields(code, c, r) <==> Yields(code', c, r) {
        ClearYields(code, dep, f, g, k, c, r);
      }
    }
  }

  lemma SameSelf(f: nat, g: nat, k: nat, c: Config)
    ensures SameConfig(f, g, k, c, c)
  {}

  lemma ClearYields(code: Code, dep: seq<nat>, f: nat, g: nat, k: nat, c: Config, r: Result)
    requires Typed(code, dep) && Region(code, dep, f, g, k) && Good(code, dep, c) && GoodRun(code, c) && f < |code|
    ensures Yields(code, c, r) <==> Yields(code[f := SVarAtClear(k)], c, r)
  {
    hide Typed, Region, Good, GoodRun, Steps, Terminal, SameConfig, ResultOf;
    var code' := code[f := SVarAtClear(k)];
    SameSelf(f, g, k, c);
    if Yields(code, c, r) {
      var e :| Ends(code, c, e) && ResultOf(e) == r;
      var n: nat :| Steps(code, c, n) == e;
      RunSame(code, dep, f, g, k, c, c, n);
      SameTerminal(f, g, k, e, Steps(code', c, n));
      assert Ends(code', c, Steps(code', c, n));
    }
    if Yields(code', c, r) {
      var e :| Ends(code', c, e) && ResultOf(e) == r;
      var n: nat :| Steps(code', c, n) == e;
      RunSame(code, dep, f, g, k, c, c, n);
      SameTerminal(f, g, k, Steps(code, c, n), e);
      assert Ends(code, c, Steps(code, c, n));
    }
  }
}
