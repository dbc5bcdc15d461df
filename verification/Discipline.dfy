/** TRY discipline: over every run of code whose TRYs are properly nested, the TRY stack mirrors
the static nesting of the active calls, and a caught error finds everything as TRY left it. */
module Discipline {
  import opened Machine
  import opened Layout

  /** Control may pass from i to the next instruction, where d TRYs are active. */
  ghost predicate Falls(code: Code, dep: seq<nat>, i: nat, d: int)
    requires |dep| == |code|
  {
    Lands(code, dep, i + 1, d)
  }

  ghost predicate Lands(code: Code, dep: seq<nat>, t: nat, d: int)
    requires |dep| == |code|
  {
    t < |code| && dep[t] == d && !code[t].Function?
  }

  ghost predicate TypedAt(code: Code, dep: seq<nat>, i: nat)
    requires |dep| == |code| && i < |code|
  {
    match code[i]
    case Function(_, _) => dep[i] == 0 && Falls(code, dep, i, 0)
    case If(t) => Falls(code, dep, i, dep[i]) && Lands(code, dep, t, dep[i])
    case Jmp(t) => Lands(code, dep, t, dep[i])
    case Exec(t) => Falls(code, dep, i, dep[i]) && t < |code| && code[t].Function?
    case Try(h) => Falls(code, dep, i, dep[i] + 1) && Lands(code, dep, h, dep[i] + 1) && code[h] == Catch
    case TryPop => dep[i] > 0 && Falls(code, dep, i, dep[i] - 1)
    case Catch => dep[i] > 0 && Falls(code, dep, i, dep[i] - 1)
    case Ret => dep[i] == 0
    case _ => Falls(code, dep, i, dep[i])
  }

  /** dep gives the number of the procedure's TRYs active before each instruction. */
  ghost predicate Typed(code: Code, dep: seq<nat>) {
    |dep| == |code| && forall i :: 0 <= i < |code| ==> TypedAt(code, dep, i)
  }

  /** Where each active call will continue, innermost last. */
  function Resumes(s: State): seq<nat>
    requires |s.sys| > 0
  {
    s.sys[1..] + [s.pc]
  }

  /** The total static nesting at the given places. */
  function Height(dep: seq<nat>, rs: seq<nat>): nat {
    if rs == [] then 0
    else Height(dep, rs[..|rs| - 1]) + (if rs[|rs| - 1] < |dep| then dep[rs[|rs| - 1]] else 0)
  }

  /** The TRY records of one call: its level, and handlers that match their places. */
  ghost predicate GroupOk(code: Code, dep: seq<nat>, level: nat, group: seq<TryRec>)
    requires |dep| == |code|
  {
    forall j :: 0 <= j < |group| ==>
      group[j].level == level && Lands(code, dep, group[j].handler, j + 1) && code[group[j].handler] == Catch
  }

  /** The records of the active calls, outermost first, each call holding as many as its place says. */
  ghost predicate TrysOk(code: Code, dep: seq<nat>, rs: seq<nat>, trys: seq<TryRec>)
    requires |dep| == |code|
    decreases |rs|
  {
    if rs == [] then trys == []
    else
      var at := rs[|rs| - 1];
      && at < |code|
      && dep[at] <= |trys|
      && GroupOk(code, dep, |rs|, trys[|trys| - dep[at]..])
      && TrysOk(code, dep, rs[..|rs| - 1], trys[..|trys| - dep[at]])
  }

  ghost predicate DepthsOk(trys: seq<TryRec>, height: nat) {
    && (forall i, j :: 0 <= i < j < |trys| ==> trys[i].depth <= trys[j].depth)
    && Floor(trys) <= height
  }

  /** A call returns to the middle of a procedure, never to a header. */
  ghost predicate ReturnsOk(code: Code, sys: seq<nat>) {
    forall a :: 1 <= a < |sys| ==> sys[a] < |code| && !code[sys[a]].Function?
  }

  /** The invariant of a running program. At a function header the new scope is still missing. */
  ghost predicate Inv(code: Code, dep: seq<nat>, s: State)
    requires |dep| == |code|
  {
    && |s.sys| > 0
    && s.pc < |code|
    && |s.svars| == (if code[s.pc].Function? then |s.sys| - 1 else |s.sys|)
    && ReturnsOk(code, s.sys)
    && TrysOk(code, dep, Resumes(s), s.trys)
    && DepthsOk(s.trys, |s.arg|)
  }

  ghost predicate Good(code: Code, dep: seq<nat>, c: Config)
    requires |dep| == |code|
  {
    c.Dead? || Halted(c) || Inv(code, dep, c.st)
  }

  // ----- facts about the TRY stack -----

  lemma {:induction false} HeightIs(code: Code, dep: seq<nat>, rs: seq<nat>, trys: seq<TryRec>)
    requires |dep| == |code| && TrysOk(code, dep, rs, trys)
    ensures |trys| == Height(dep, rs)
    decreases |rs|
  {
    if rs != [] {
      HeightIs(code, dep, rs[..|rs| - 1], trys[..|trys| - dep[rs[|rs| - 1]]]);
    }
  }

  /** Moving the innermost call to a place with the same nesting. */
  lemma {:induction false} MoveTop(code: Code, dep: seq<nat>, rs: seq<nat>, trys: seq<TryRec>, pc: nat)
    requires |dep| == |code| && TrysOk(code, dep, rs, trys) && rs != []
    requires pc < |code| && dep[pc] == dep[rs[|rs| - 1]]
    ensures TrysOk(code, dep, rs[..|rs| - 1] + [pc], trys)
  {
    var rs' := rs[..|rs| - 1] + [pc];
    assert rs'[..|rs'| - 1] == rs[..|rs| - 1];
  }

  /** The calls down to the level of the innermost record hold all the records. */
  lemma {:induction false} Unwind(code: Code, dep: seq<nat>, rs: seq<nat>, trys: seq<TryRec>)
    requires |dep| == |code| && TrysOk(code, dep, rs, trys) && trys != []
    ensures
      var t := trys[|trys| - 1];
      && 0 < t.level <= |rs|
      && TrysOk(code, dep, rs[..t.level - 1] + [t.handler], trys)
      && t.handler < |code| && code[t.handler] == Catch
    decreases |rs|
  {
    var t := trys[|trys| - 1];
    var at := rs[|rs| - 1];
    if dep[at] == 0 {
      assert trys[..|trys| - 0] == trys;
      Unwind(code, dep, rs[..|rs| - 1], trys);
      assert rs[..|rs| - 1][..t.level - 1] == rs[..t.level - 1];
    } else {
      var group := trys[|trys| - dep[at]..];
      assert group[dep[at] - 1] == t;
      MoveTop(code, dep, rs, trys, t.handler);
    }
  }

  lemma {:induction false} LevelsOk(code: Code, dep: seq<nat>, rs: seq<nat>, trys: seq<TryRec>, i: nat)
    requires |dep| == |code| && TrysOk(code, dep, rs, trys) && i < |trys|
    ensures 0 < trys[i].level <= |rs|
    decreases |rs|
  {
    var d := dep[rs[|rs| - 1]];
    if i < |trys| - d {
      LevelsOk(code, dep, rs[..|rs| - 1], trys[..|trys| - d], i);
      assert trys[..|trys| - d][i] == trys[i];
    } else {
      assert trys[|trys| - d..][i - (|trys| - d)] == trys[i];
    }
  }

  // ----- every step keeps the invariant -----

  lemma RaiseKeeps(code: Code, dep: seq<nat>, s: State, msg: string, kept: nat)
    requires Typed(code, dep) && Inv(code, dep, s) && !code[s.pc].Function?
    requires Floor(s.trys) <= kept <= |s.arg|
    ensures Good(code, dep, Raise(s, msg, kept))
    ensures s.trys != [] ==> Raise(s, msg, kept).Live? && !Halted(Raise(s, msg, kept))
  {
    if s.trys != [] {
      var rs := Resumes(s);
      Unwind(code, dep, rs, s.trys);
      var t := s.trys[|s.trys| - 1];
      var s' := Raise(s, msg, kept).st;
      assert Resumes(s') == rs[..t.level - 1] + [t.handler];
    }
  }

  lemma LocalKeeps(code: Code, dep: seq<nat>, s: State)
    requires Typed(code, dep) && Inv(code, dep, s) && Machine.Local(code[s.pc])
    ensures Good(code, dep, LocalStep(code[s.pc], s))
  {
    hide Raise, ExecLocal, DepthsOk;
    assert TypedAt(code, dep, s.pc);
    assert Floor(s.trys) <= |s.arg| by { DepthsFloor(s.trys, |s.arg|); }
    LocalKeepsFloor(code[s.pc], s.arg, TopScope(s.svars), Floor(s.trys));
    match ExecLocal(code[s.pc], s.arg, TopScope(s.svars), Floor(s.trys))
    case Ok(arg, scope, jump) =>
      var s' := LocalStep(code[s.pc], s).st;
      MoveTop(code, dep, Resumes(s), s.trys, s'.pc);
      assert Resumes(s)[..|Resumes(s)| - 1] == s.sys[1..];
      DepthsMore(s.trys, |s.arg|, |arg|);
    case Fail(msg, kept) =>
      RaiseKeeps(code, dep, s, msg, kept);
  }

  lemma DepthsFloor(trys: seq<TryRec>, height: nat)
    requires DepthsOk(trys, height)
    ensures Floor(trys) <= height
  {}

  lemma DepthsMore(trys: seq<TryRec>, height: nat, height': nat)
    requires DepthsOk(trys, height) && Floor(trys) <= height'
    ensures DepthsOk(trys, height')
  {}

  lemma CallPushes(code: Code, dep: seq<nat>, s: State, t: nat)
    requires Typed(code, dep) && Inv(code, dep, s) && code[s.pc] == Inst.Exec(t) && |s.sys| < STACK_SIZE
    ensures Good(code, dep, ExecStep(t, s))
  {
    hide DepthsOk, GroupOk;
    assert TypedAt(code, dep, s.pc);
    assert TypedAt(code, dep, t);
    var rs := Resumes(s);
    var s' := ExecStep(t, s).st;
    var rs' := Resumes(s');
    var none: seq<TryRec> := [];
    hide TrysOk;
    assert rs[..|rs| - 1] == s.sys[1..];
    assert GroupOk(code, dep, |rs'|, none) by { EmptyGroup(code, dep, |rs'|); }
    MoveTop(code, dep, rs, s.trys, s.pc + 1);
    assert rs' == (s.sys[1..] + [s.pc + 1]) + [t];
    assert rs'[..|rs'| - 1] == s.sys[1..] + [s.pc + 1];
    TrysJoin(code, dep, rs', s.trys, none);
    assert s.trys + none == s.trys;
  }

  lemma EmptyGroup(code: Code, dep: seq<nat>, level: nat)
    requires |dep| == |code|
    ensures GroupOk(code, dep, level, [])
  {}

  lemma RaisedDead(s: State)
    requires s.trys == []
    ensures forall msg, kept :: Raise(s, msg, kept) == Dead(msg)
  {}

  lemma CallKeeps(code: Code, dep: seq<nat>, s: State)
    requires Typed(code, dep) && Inv(code, dep, s)
    requires code[s.pc].Exec? || code[s.pc].Function? || code[s.pc].Jmp? || code[s.pc].Ret?
    requires !HeaderFails(code, s)
    ensures Good(code, dep, StepState(code, s))
  {
    hide Raise, DepthsOk, NewScope, LocalStep, TryStep, CatchStep, TryPopStep, GroupOk;
    assert TypedAt(code, dep, s.pc);
    var rs := Resumes(s);
    assert rs[..|rs| - 1] == s.sys[1..];
    match code[s.pc] {
      case Function(args, vars) =>
        MoveTop(code, dep, rs, s.trys, s.pc + 1);
        DepthsFloor(s.trys, |s.arg|);
        if s.trys == [] && Lacks(s.arg, Floor(s.trys), args) {
          RaisedDead(s);
        } else {
          DepthsMore(s.trys, |s.arg|, |s.arg| - args);
        }
      case Jmp(t) =>
        MoveTop(code, dep, rs, s.trys, t);
      case Exec(t) =>
        if |s.sys| >= STACK_SIZE {
          DepthsFloor(s.trys, |s.arg|);
          RaiseKeeps(code, dep, s, "System Stack Overflow", |s.arg|);
        } else {
          CallPushes(code, dep, s, t);
        }
      case Ret =>
        assert s.trys[..|s.trys| - 0] == s.trys;
        var s' := StepState(code, s).st;
        if |s.sys| > 1 {
          assert Resumes(s') == rs[..|rs| - 1];
        }
    }
  }

  lemma TryKeeps(code: Code, dep: seq<nat>, s: State)
    requires Typed(code, dep) && Inv(code, dep, s)
    requires code[s.pc].Try? || code[s.pc].TryPop? || code[s.pc].Catch?
    ensures Good(code, dep, StepState(code, s))
    ensures !code[s.pc].Try? ==> StepState(code, s).Live?
  {
    hide Raise, TrysOk, DepthsOk, LocalStep, HeaderStep, ExecStep, RetStep;
    assert TypedAt(code, dep, s.pc);
    var rs := Resumes(s);
    assert rs[..|rs| - 1] == s.sys[1..];
    DepthsFloor(s.trys, |s.arg|);
    match code[s.pc] {
      case Try(h) =>
        hide TryStep;
        if Lacks(s.arg, Floor(s.trys), 1) {
          RaiseKeeps(code, dep, s, LackMsg(s.arg, 1, "Stack Underflow."), |s.arg|);
        } else {
          TryPushKeeps(code, dep, s, h);
        }
      case TryPop =>
        TryDropKeeps(code, dep, rs, s.trys, s.pc + 1);
        DepthsDrop(s.trys, |s.arg|, |s.arg|);
      case Catch =>
        TryDropKeeps(code, dep, rs, s.trys, s.pc + 1);
        DepthsDrop(s.trys, |s.arg|, |CatchStep(s).st.arg|);
    }
  }

  /** Leaving the innermost record of the innermost call. */
  lemma {:induction false} TryDropKeeps(code: Code, dep: seq<nat>, rs: seq<nat>, trys: seq<TryRec>, pc: nat)
    requires |dep| == |code| && TrysOk(code, dep, rs, trys) && rs != []
    requires rs[|rs| - 1] < |code|
    requires pc < |code| && dep[pc] + 1 == dep[rs[|rs| - 1]]
    ensures trys != [] && TrysOk(code, dep, rs[..|rs| - 1] + [pc], trys[..|trys| - 1])
  {
    hide GroupOk, TrysOk;
    var e := dep[pc];
    TrysSplit(code, dep, rs, trys);
    var rs', trys' := rs[..|rs| - 1] + [pc], trys[..|trys| - 1];
    var outer := trys[..|trys| - (e + 1)];
    var group := trys[|trys| - (e + 1)..];
    GroupLess(code, dep, |rs|, group);
    assert rs'[..|rs'| - 1] == rs[..|rs| - 1];
    TrysJoin(code, dep, rs', outer, group[..e]);
    assert outer + group[..e] == trys';
  }

  lemma {:induction false} TrysSplit(code: Code, dep: seq<nat>, rs: seq<nat>, trys: seq<TryRec>)
    requires |dep| == |code| && TrysOk(code, dep, rs, trys) && rs != []
    ensures rs[|rs| - 1] < |code|
    ensures
      var d := dep[rs[|rs| - 1]];
      && d <= |trys|
      && TrysOk(code, dep, rs[..|rs| - 1], trys[..|trys| - d])
      && GroupOk(code, dep, |rs|, trys[|trys| - d..])
  {
    hide GroupOk;
  }

  lemma {:induction false} TrysJoin(code: Code, dep: seq<nat>, rs: seq<nat>, outer: seq<TryRec>, group: seq<TryRec>)
    requires |dep| == |code| && rs != [] && rs[|rs| - 1] < |code| && dep[rs[|rs| - 1]] == |group|
    requires TrysOk(code, dep, rs[..|rs| - 1], outer) && GroupOk(code, dep, |rs|, group)
    ensures TrysOk(code, dep, rs, outer + group)
  {
    hide GroupOk;
    assert (outer + group)[..|outer|] == outer && (outer + group)[|outer|..] == group;
  }

  lemma GroupLess(code: Code, dep: seq<nat>, level: nat, group: seq<TryRec>)
    requires |dep| == |code| && GroupOk(code, dep, level, group) && group != []
    ensures GroupOk(code, dep, level, group[..|group| - 1])
  {}

  lemma GroupMore(code: Code, dep: seq<nat>, level: nat, group: seq<TryRec>, rec: TryRec)
    requires |dep| == |code| && GroupOk(code, dep, level, group)
    requires rec.level == level && Lands(code, dep, rec.handler, |group| + 1) && code[rec.handler] == Catch
    ensures GroupOk(code, dep, level, group + [rec])
  {}

  /** Entering one more record in the innermost call. */
  lemma {:induction false} TryAddKeeps(code: Code, dep: seq<nat>, rs: seq<nat>, trys: seq<TryRec>, pc: nat, rec: TryRec)
    requires |dep| == |code| && TrysOk(code, dep, rs, trys) && rs != []
    requires pc < |code| && dep[pc] == dep[rs[|rs| - 1]] + 1
    requires rec.level == |rs| && Lands(code, dep, rec.handler, dep[pc]) && code[rec.handler] == Catch
    ensures TrysOk(code, dep, rs[..|rs| - 1] + [pc], trys + [rec])
  {
    hide GroupOk, Lands;
    var d := dep[rs[|rs| - 1]];
    var rs' := rs[..|rs| - 1] + [pc];
    var outer, group := trys[..|trys| - d], trys[|trys| - d..];
    GroupMore(code, dep, |rs|, group, rec);
    hide TrysOk;
    assert rs'[..|rs'| - 1] == rs[..|rs| - 1];
    TrysJoin(code, dep, rs', outer, group + [rec]);
    assert outer + (group + [rec]) == trys + [rec];
  }

  lemma DepthsAdd(trys: seq<TryRec>, height: nat, rec: TryRec, height': nat)
    requires DepthsOk(trys, height) && Floor(trys) <= rec.depth <= height'
    ensures DepthsOk(trys + [rec], height')
  {}

  lemma DepthsDrop(trys: seq<TryRec>, height: nat, height': nat)
    requires DepthsOk(trys, height) && trys != [] && Floor(trys) <= height'
    ensures DepthsOk(trys[..|trys| - 1], height')
  {}

  lemma TryPushKeeps(code: Code, dep: seq<nat>, s: State, h: nat)
    requires Typed(code, dep) && Inv(code, dep, s) && code[s.pc] == Inst.Try(h)
    requires !Lacks(s.arg, Floor(s.trys), 1)
    ensures Good(code, dep, TryStep(h, s))
  {
    hide Raise, TrysOk, DepthsOk;
    assert Floor(s.trys) <= |s.arg| by { DepthsFloor(s.trys, |s.arg|); }
    assert TypedAt(code, dep, s.pc);
    var rs := Resumes(s);
    assert rs[..|rs| - 1] == s.sys[1..];
    var v := Top(s.arg);
    var arg := Drop(s.arg, 1);
    if !v.Int? || v.n < 0 {
      RaiseKeeps(code, dep, s, "Argument is not a positive integer.", |arg|);
    } else if s.trys != [] && |arg| - Floor(s.trys) < v.n {
      RaiseKeeps(code, dep, s, "Stack protection fault.", |arg|);
    } else if v.n > |arg| {
      RaiseKeeps(code, dep, s, "Stack Underflow.", |arg|);
    } else {
      var s' := TryStep(h, s).st;
      var rec := TryRec(|arg| - v.n, |s.sys|, h);
      TryAddKeeps(code, dep, rs, s.trys, s.pc + 1, rec);
      DepthsAdd(s.trys, |s.arg|, rec, |arg|);
    }
  }

  /** Every step from a state that satisfies the invariant either ends the program or keeps it,
      unless a function header finds too few arguments inside a TRY. */
  lemma StepKeeps(code: Code, dep: seq<nat>, s: State)
    requires Typed(code, dep) && Inv(code, dep, s) && !HeaderFails(code, s)
    ensures Good(code, dep, Step(code, Live(s)))
  {
    hide TypedAt, TrysOk, Raise, ExecLocal, DepthsOk, ReturnsOk, LocalStep, TryStep, HeaderStep, ExecStep;
    if Machine.Local(code[s.pc]) {
      LocalKeeps(code, dep, s);
    } else if code[s.pc].Try? || code[s.pc].TryPop? || code[s.pc].Catch? {
      TryKeeps(code, dep, s);
    } else {
      CallKeeps(code, dep, s);
    }
  }

  // ----- whole runs -----

  /** No function header in the first n steps finds too few arguments. */
  ghost predicate CleanRun(code: Code, c: Config, n: nat) {
    forall k: nat :: k < n && Steps(code, c, k).Live? ==> !HeaderFails(code, Steps(code, c, k).st)
  }

  lemma {:induction false} RunKeeps(code: Code, dep: seq<nat>, c: Config, n: nat)
    requires Typed(code, dep) && Good(code, dep, c) && CleanRun(code, c, n)
    ensures Good(code, dep, Steps(code, c, n))
    decreases n
  {
    hide Typed, Inv, HeaderFails, Step, Terminal;
    NoSteps(code, c);
    if n > 0 {
      RunKeeps(code, dep, c, n - 1);
      StepsAdd(code, c, n - 1, 1);
      var c' := Steps(code, c, n - 1);
      OneStep(code, c');
      if c'.Live? && !Halted(c') {
        StepKeeps(code, dep, c'.st);
      } else {
        TerminalStep(code, c');
      }
    }
  }

  lemma TerminalStep(code: Code, c: Config)
    requires Terminal(c)
    ensures Step(code, c) == c
  {}

  lemma {:induction false} LevelsSorted(code: Code, dep: seq<nat>, rs: seq<nat>, trys: seq<TryRec>, i: nat, j: nat)
    requires |dep| == |code| && TrysOk(code, dep, rs, trys) && i < j < |trys|
    ensures trys[i].level <= trys[j].level
    decreases |rs|
  {
    hide Lands;
    var d := dep[rs[|rs| - 1]];
    var outer, group := trys[..|trys| - d], trys[|trys| - d..];
    if j < |outer| {
      LevelsSorted(code, dep, rs[..|rs| - 1], outer, i, j);
    } else {
      assert group[j - |outer|] == trys[j];
      if i < |outer| {
        LevelsOk(code, dep, rs[..|rs| - 1], outer, i);
      } else {
        assert group[i - |outer|] == trys[i];
      }
    }
  }

  /** The TRY stack is as high as the nesting of the active calls, its levels and depths never decrease
      upward, and the stack reaches up to the innermost depth. */
  ghost predicate Disciplined(code: Code, dep: seq<nat>, s: State)
    requires |dep| == |code|
  {
    && |s.sys| > 0 && |s.trys| == Height(dep, Resumes(s))
    && (forall i, j :: 0 <= i < j < |s.trys| ==> s.trys[i].level <= s.trys[j].level)
    && (forall i, j :: 0 <= i < j < |s.trys| ==> s.trys[i].depth <= s.trys[j].depth)
    && Floor(s.trys) <= |s.arg|
  }

  lemma RunDiscipline(code: Code, dep: seq<nat>, c: Config, n: nat)
    requires Typed(code, dep) && Good(code, dep, c) && CleanRun(code, c, n)
    requires !Terminal(Steps(code, c, n))
    ensures Disciplined(code, dep, Steps(code, c, n).st)
  {
    hide TypedAt, Steps;
    RunKeeps(code, dep, c, n);
    var s := Steps(code, c, n).st;
    HeightIs(code, dep, Resumes(s), s.trys);
    forall i, j | 0 <= i < j < |s.trys| ensures s.trys[i].level <= s.trys[j].level {
      LevelsSorted(code, dep, Resumes(s), s.trys, i, j);
    }
  }

  // ----- a caught error -----

  /** While the record pushed by a TRY remains, s has kept everything the TRY protects; s0 is the
      state just after the TRY. */
  ghost predicate Under(s0: State, s: State)
    requires s0.trys != []
  {
    var k, rec := |s0.trys|, s0.trys[|s0.trys| - 1];
    && k <= |s.trys| && s.trys[..k] == s0.trys
    && rec.depth <= |s0.arg| && rec.depth <= |s.arg| && s.arg[..rec.depth] == s0.arg[..rec.depth]
    && 0 < rec.level == |s0.sys| <= |s.sys| && s.sys[..rec.level] == s0.sys
    && rec.level - 1 <= |s0.svars| && rec.level - 1 <= |s.svars|
    && s.svars[..rec.level - 1] == s0.svars[..rec.level - 1]
  }

  lemma LocalKeepsPrefix(i: Inst, arg: seq<Value>, scope: Scope, floor: nat, k: nat)
    requires Machine.Local(i) && k <= floor <= |arg|
    ensures ExecLocal(i, arg, scope, floor).Ok? ==>
              k <= |ExecLocal(i, arg, scope, floor).arg| && ExecLocal(i, arg, scope, floor).arg[..k] == arg[..k]
  {
    hide ApplyPrim;
    LocalKeepsFloor(i, arg, scope, floor);
    if i.Primitive? && !Lacks(arg, PrimFloor(i.p, floor), Arity(i.p)) {
      PrimKeepsPrefix(i.p, arg, scope, floor, k);
    }
  }

  lemma PrimKeepsPrefix(p: Prim, arg: seq<Value>, scope: Scope, floor: nat, k: nat)
    requires k <= floor <= |arg| && !Lacks(arg, PrimFloor(p, floor), Arity(p))
    ensures ApplyPrim(p, arg, scope).Ok? ==>
              k <= |ApplyPrim(p, arg, scope).arg| && ApplyPrim(p, arg, scope).arg[..k] == arg[..k]
  {
    hide VarRefError, Arith, StrOrder, IsFalse, Wrap;
  }

  /** The innermost record is at least as deep, and of at least as high a level, as the one under it. */
  lemma UnderFloor(code: Code, dep: seq<nat>, s0: State, s: State)
    requires |dep| == |code| && Inv(code, dep, s) && s0.trys != [] && Under(s0, s)
    ensures s.trys != [] && s0.trys[|s0.trys| - 1].depth <= Floor(s.trys) <= |s.arg|
    ensures s0.trys[|s0.trys| - 1].level <= s.trys[|s.trys| - 1].level <= |s.sys|
  {
    var k := |s0.trys|;
    assert s.trys[k - 1] == s.trys[..k][k - 1] == s0.trys[k - 1];
    LevelsOk(code, dep, Resumes(s), s.trys, |s.trys| - 1);
    if k < |s.trys| {
      LevelsSorted(code, dep, Resumes(s), s.trys, k - 1, |s.trys| - 1);
    }
  }

  lemma UnderRaise(code: Code, dep: seq<nat>, s0: State, s: State, msg: string, kept: nat)
    requires |dep| == |code| && Inv(code, dep, s) && s0.trys != [] && Under(s0, s) && !code[s.pc].Function?
    requires Floor(s.trys) <= kept <= |s.arg|
    ensures Raise(s, msg, kept).Live? && Under(s0, Raise(s, msg, kept).st)
  {
    UnderFloor(code, dep, s0, s);
    var s' := Raise(s, msg, kept).st;
    var rec, t := s0.trys[|s0.trys| - 1], s.trys[|s.trys| - 1];
    assert s'.arg[..rec.depth] == s.arg[..rec.depth];
    assert s'.sys[..rec.level] == s.sys[..rec.level];
    assert s'.svars[..rec.level - 1] == s.svars[..rec.level - 1];
  }

  lemma UnderLocal(code: Code, dep: seq<nat>, s0: State, s: State)
    requires Typed(code, dep) && Inv(code, dep, s) && s0.trys != [] && Under(s0, s) && Machine.Local(code[s.pc])
    ensures LocalStep(code[s.pc], s).Live? && Under(s0, LocalStep(code[s.pc], s).st)
  {
    hide Raise, ExecLocal, TrysOk, TypedAt, DepthsOk, ReturnsOk;
    UnderFloor(code, dep, s0, s);
    var rec := s0.trys[|s0.trys| - 1];
    LocalKeepsFloor(code[s.pc], s.arg, TopScope(s.svars), Floor(s.trys));
    LocalKeepsPrefix(code[s.pc], s.arg, TopScope(s.svars), Floor(s.trys), rec.depth);
    match ExecLocal(code[s.pc], s.arg, TopScope(s.svars), Floor(s.trys))
    case Ok(arg, scope, jump) =>
      var s' := LocalStep(code[s.pc], s).st;
      assert s'.svars[..rec.level - 1] == s.svars[..rec.level - 1];
    case Fail(msg, kept) =>
      UnderRaise(code, dep, s0, s, msg, kept);
  }

  lemma UnderCall(code: Code, dep: seq<nat>, s0: State, s: State)
    requires Typed(code, dep) && Inv(code, dep, s) && s0.trys != [] && Under(s0, s)
    requires code[s.pc].Exec? || code[s.pc].Function? || code[s.pc].Jmp? || code[s.pc].Ret?
    requires !HeaderFails(code, s)
    ensures StepState(code, s).Live? && Under(s0, StepState(code, s).st)
  {
    hide Raise, NewScope, LocalStep, TryStep, CatchStep, TryPopStep, GroupOk, DepthsOk, ReturnsOk, TypedAt;
    UnderFloor(code, dep, s0, s);
    var rec := s0.trys[|s0.trys| - 1];
    match code[s.pc] {
      case Function(args, vars) =>
        var s' := StepState(code, s).st;
        assert s'.arg[..rec.depth] == s.arg[..rec.depth];
        assert s'.svars[..rec.level - 1] == s.svars[..rec.level - 1];
      case Jmp(t) =>
      case Exec(t) =>
        if |s.sys| >= STACK_SIZE {
          UnderRaise(code, dep, s0, s, "System Stack Overflow", |s.arg|);
        } else {
          assert StepState(code, s).st.sys[..rec.level] == s.sys[..rec.level];
        }
      case Ret =>
        RetLevel(code, dep, s);
        var s' := StepState(code, s).st;
        assert s'.sys[..rec.level] == s.sys[..rec.level];
        assert s'.svars[..rec.level - 1] == s.svars[..rec.level - 1];
    }
  }

  /** At RET no record belongs to the call that returns. */
  lemma RetLevel(code: Code, dep: seq<nat>, s: State)
    requires Typed(code, dep) && Inv(code, dep, s) && code[s.pc].Ret? && s.trys != []
    ensures s.trys[|s.trys| - 1].level < |s.sys|
  {
    assert TypedAt(code, dep, s.pc);
    var rs := Resumes(s);
    assert s.trys[..|s.trys| - 0] == s.trys;
    LevelsOk(code, dep, rs[..|rs| - 1], s.trys, |s.trys| - 1);
  }

  lemma UnderTry(code: Code, dep: seq<nat>, s0: State, s: State)
    requires Typed(code, dep) && Inv(code, dep, s) && s0.trys != [] && Under(s0, s)
    requires code[s.pc].Try? || code[s.pc].TryPop? || code[s.pc].Catch?
    requires StepState(code, s).Live? && |StepState(code, s).st.trys| >= |s0.trys|
    ensures Under(s0, StepState(code, s).st)
  {
    hide Raise, TrysOk, DepthsOk, LocalStep, HeaderStep, ExecStep, RetStep, TypedAt, ReturnsOk;
    UnderFloor(code, dep, s0, s);
    var k, rec := |s0.trys|, s0.trys[|s0.trys| - 1];
    var s' := StepState(code, s).st;
    match code[s.pc] {
      case Try(h) =>
        if Lacks(s.arg, Floor(s.trys), 1) {
          UnderRaise(code, dep, s0, s, LackMsg(s.arg, 1, "Stack Underflow."), |s.arg|);
        } else if !Top(s.arg).Int? || Top(s.arg).n < 0 {
          UnderRaise(code, dep, s0, s, "Argument is not a positive integer.", |s.arg| - 1);
        } else if |s.arg| - 1 - Floor(s.trys) < Top(s.arg).n {
          UnderRaise(code, dep, s0, s, "Stack protection fault.", |s.arg| - 1);
        } else {
          assert s'.arg[..rec.depth] == s.arg[..rec.depth];
          assert s'.trys[..k] == s.trys[..k];
        }
      case TryPop =>
        assert s'.trys[..k] == s.trys[..k];
      case Catch =>
        assert s'.trys[..k] == s.trys[..k];
        assert s'.arg[..rec.depth] == s.arg[..rec.depth];
    }
  }

  lemma UnderStep(code: Code, dep: seq<nat>, s0: State, s: State)
    requires Typed(code, dep) && Inv(code, dep, s) && s0.trys != [] && Under(s0, s) && !HeaderFails(code, s)
    requires Step(code, Live(s)).Live? && |Step(code, Live(s)).st.trys| >= |s0.trys|
    ensures Under(s0, Step(code, Live(s)).st)
  {
    hide TypedAt, TrysOk, Raise, ExecLocal, DepthsOk, ReturnsOk, LocalStep, TryStep, HeaderStep, ExecStep, Under;
    if Machine.Local(code[s.pc]) {
      UnderLocal(code, dep, s0, s);
    } else if code[s.pc].Try? || code[s.pc].TryPop? || code[s.pc].Catch? {
      UnderTry(code, dep, s0, s);
    } else {
      UnderCall(code, dep, s0, s);
    }
  }

  /** The record pushed by a TRY is still there for the next n steps, with no failing header. */
  ghost predicate Guarded(code: Code, s0: State, n: nat) {
    forall i: nat :: i <= n ==>
      var c := Steps(code, Live(s0), i);
      !Terminal(c) && |c.st.trys| >= |s0.trys| && (i < n ==> !HeaderFails(code, c.st))
  }

  lemma {:induction false} UnderRun(code: Code, dep: seq<nat>, s0: State, n: nat)
    requires Typed(code, dep) && Inv(code, dep, s0) && s0.trys != [] && Under(s0, s0)
    requires Guarded(code, s0, n)
    ensures
      var c := Steps(code, Live(s0), n);
      c.Live? && Inv(code, dep, c.st) && Under(s0, c.st)
    decreases n
  {
    hide Typed, Inv, Under, HeaderFails, Step, Terminal;
    NoSteps(code, Live(s0));
    if n > 0 {
      UnderRun(code, dep, s0, n - 1);
      StepsAdd(code, Live(s0), n - 1, 1);
      var c := Steps(code, Live(s0), n - 1);
      OneStep(code, c);
      NotTerminal(Steps(code, Live(s0), n));
      StepKeeps(code, dep, c.st);
      UnderStep(code, dep, s0, c.st);
    }
  }

  /** The n-th step of the run is a TRY that pushes its record. */
  ghost predicate Pushes(code: Code, c: Config, n: nat) {
    var s, s0 := Steps(code, c, n), Steps(code, c, n + 1);
    && !Terminal(s) && s.st.pc < |code| && code[s.st.pc].Try?
    && s0.Live? && |s0.st.trys| == |s.st.trys| + 1
  }

  /** m steps later, with the record still there, everything below the depth it protects is as it was. */
  ghost predicate BelowKept(code: Code, s0: State, m: nat) {
    var e, d := Steps(code, Live(s0), m), Floor(s0.trys);
    e.Live? && d <= |s0.arg| && d <= |e.st.arg| && e.st.arg[..d] == s0.arg[..d]
  }

  ghost predicate KeepsBelow(code: Code, c: Config, n: nat, m: nat) {
    Pushes(code, c, n) && Guarded(code, Steps(code, c, n + 1).st, m) ==> BelowKept(code, Steps(code, c, n + 1).st, m)
  }

  /** Nothing below the depth of a TRY changes while its record is there. */
  lemma PrefixKept(code: Code, dep: seq<nat>, c: Config, n: nat, m: nat)
    requires Typed(code, dep) && Good(code, dep, c) && CleanRun(code, c, n)
    ensures KeepsBelow(code, c, n, m)
  {
    hide TypedAt, HeaderFails, Steps, Step, Inv, Height, Resumes;
    if !(Pushes(code, c, n) && Guarded(code, Steps(code, c, n + 1).st, m)) {
      return;
    }
    RunKeeps(code, dep, c, n);
    var s := Steps(code, c, n);
    StepsAdd(code, c, n, 1);
    OneStep(code, s);
    var s0 := Steps(code, c, n + 1).st;
    LiveInv(code, dep, s);
    TryPushed(code, dep, s.st, code[s.st.pc].target, s0);
    UnderRun(code, dep, s0, m);
  }

  lemma LiveInv(code: Code, dep: seq<nat>, c: Config)
    requires |dep| == |code| && Good(code, dep, c) && !Terminal(c)
    ensures c.Live? && Inv(code, dep, c.st)
  {}

  lemma NotTerminal(c: Config)
    requires !Terminal(c)
    ensures c.Live? && !Halted(c)
  {}

  /** An error raised while the record of a TRY is the innermost one resumes after its CATCH with
      exactly the protected arguments and the message, the call depth and the TRY stack from before
      the TRY, and the scopes of the calls that were active then: those of the callers as they were,
      that of the TRY's own call as it is now. */
  lemma CaughtError(code: Code, dep: seq<nat>, s: State, handler: nat, s0: State, n: nat, e: State, msg: string,
      kept: nat)
    returns (after: State)
    requires Typed(code, dep) && Inv(code, dep, s) && code[s.pc] == Inst.Try(handler)
    requires Step(code, Live(s)) == Live(s0) && |s0.trys| == |s.trys| + 1
    requires Guarded(code, s0, n) && Steps(code, Live(s0), n) == Live(e)
    requires |e.trys| == |s.trys| + 1 && e.pc < |code| && !code[e.pc].Function?
    requires Floor(e.trys) <= kept <= |e.arg| && Step(code, Live(e)) == Raise(e, msg, kept)
    ensures Steps(code, Live(e), 2) == Live(after)
    ensures |s.arg| > 0 && Top(s.arg).Int? && 0 <= Top(s.arg).n <= |s.arg| - 1
    ensures after.pc == handler + 1
    ensures after.arg == s.arg[..|s.arg| - 1 - Top(s.arg).n] + [Str(msg)]
    ensures after.sys == s.sys && after.trys == s.trys
    ensures |after.svars| == |s.svars| == |s.sys| <= |e.svars|
    ensures after.svars == s.svars[..|s.sys| - 1] + [e.svars[|s.sys| - 1]]
  {
    hide Typed, HeaderFails, Steps, Step, TrysOk, DepthsOk, ReturnsOk, Raise;
    TryPushed(code, dep, s, handler, s0);
    UnderRun(code, dep, s0, n);
    after := CatchAfter(code, dep, s0, e, msg, kept);
    assert s0.trys[..|s.trys|] == s.trys;
  }

  lemma {:induction false} TryPushed(code: Code, dep: seq<nat>, s: State, handler: nat, s0: State)
    requires Typed(code, dep) && Inv(code, dep, s) && code[s.pc] == Inst.Try(handler)
    requires Step(code, Live(s)) == Live(s0) && |s0.trys| == |s.trys| + 1
    ensures |s.arg| > 0 && Top(s.arg).Int? && 0 <= Top(s.arg).n <= |s.arg| - 1
    ensures
      var depth := |s.arg| - 1 - Top(s.arg).n;
      s0 == s.(pc := s.pc + 1, arg := Drop(s.arg, 1), trys := s.trys + [TryRec(depth, |s.sys|, handler)])
    ensures Inv(code, dep, s0) && Under(s0, s0)
  {
    hide TypedAt, TrysOk, DepthsOk, ReturnsOk, Raise;
    StepKeeps(code, dep, s);
    RaiseTrys(s);
  }

  lemma RaiseTrys(s: State)
    ensures forall msg, kept :: Raise(s, msg, kept).Live? ==> Raise(s, msg, kept).st.trys == s.trys
  {}

  lemma CatchAfter(code: Code, dep: seq<nat>, s0: State, e: State, msg: string, kept: nat) returns (after: State)
    requires Typed(code, dep) && Inv(code, dep, e) && s0.trys != [] && Under(s0, e) && |e.trys| == |s0.trys|
    requires !code[e.pc].Function? && |s0.svars| == |s0.sys|
    requires Floor(e.trys) <= kept <= |e.arg| && Step(code, Live(e)) == Raise(e, msg, kept)
    ensures Steps(code, Live(e), 2) == Live(after) && |s0.sys| <= |e.svars|
    ensures
      var rec := s0.trys[|s0.trys| - 1];
      after == State(rec.handler + 1, s0.arg[..rec.depth] + [Str(msg)], s0.sys,
                     s0.svars[..|s0.sys| - 1] + [e.svars[|s0.sys| - 1]], s0.trys[..|s0.trys| - 1], "")
  {
    hide Steps, Step, Raise, DepthsOk, ReturnsOk, TypedAt, TrysOk;
    RaiseUnder(code, dep, s0, e, msg, kept);
    CatchUnder(code, s0, e, msg, kept);
    TwoSteps(code, Live(e));
    var rec := s0.trys[|s0.trys| - 1];
    assert e.svars[..rec.level] == e.svars[..rec.level - 1] + [e.svars[rec.level - 1]];
    after := State(rec.handler + 1, s0.arg[..rec.depth] + [Str(msg)], s0.sys, e.svars[..rec.level], s0.trys[..|s0.trys| - 1], "");
  }

  function AtHandler(s0: State, e: State, msg: string, kept: nat): State
    requires s0.trys != [] && |s0.sys| <= |e.svars| && kept <= |e.arg|
  {
    State(s0.trys[|s0.trys| - 1].handler, e.arg[..kept], s0.sys, e.svars[..|s0.sys|], s0.trys, msg)
  }

  lemma RaiseUnder(code: Code, dep: seq<nat>, s0: State, e: State, msg: string, kept: nat)
    requires Typed(code, dep) && Inv(code, dep, e) && s0.trys != [] && Under(s0, e) && |e.trys| == |s0.trys|
    requires !code[e.pc].Function? && kept <= |e.arg|
    ensures |s0.sys| <= |e.svars| && Raise(e, msg, kept) == Live(AtHandler(s0, e, msg, kept))
    ensures
      var h := s0.trys[|s0.trys| - 1].handler;
      h < |code| && code[h] == Catch
  {
    hide DepthsOk, ReturnsOk, TypedAt;
    assert e.trys == e.trys[..|s0.trys|];
    Unwind(code, dep, Resumes(e), e.trys);
  }

  lemma CatchUnder(code: Code, s0: State, e: State, msg: string, kept: nat)
    requires s0.trys != [] && |s0.sys| <= |e.svars| && Floor(s0.trys) <= kept <= |e.arg| && 0 < |s0.sys|
    requires Floor(s0.trys) <= |s0.arg| && e.arg[..Floor(s0.trys)] == s0.arg[..Floor(s0.trys)]
    requires
      var h := s0.trys[|s0.trys| - 1].handler;
      h < |code| && code[h] == Catch
    ensures
      var rec := s0.trys[|s0.trys| - 1];
      Step(code, Live(AtHandler(s0, e, msg, kept)))
      == Live(State(rec.handler + 1, s0.arg[..rec.depth] + [Str(msg)], s0.sys, e.svars[..|s0.sys|], s0.trys[..|s0.trys| - 1], ""))
  {
    var r := AtHandler(s0, e, msg, kept);
    assert Step(code, Live(r)) == CatchStep(r);
    assert r.arg[..Floor(s0.trys)] == e.arg[..Floor(s0.trys)];
    assert |r.arg| == Floor(s0.trys) ==> r.arg == r.arg[..Floor(s0.trys)];
  }

  lemma TwoSteps(code: Code, c: Config)
    ensures Steps(code, c, 2) == Step(code, Step(code, c))
  {
    hide Step;
    assert Steps(code, Step(code, c), 1) == Steps(code, Step(code, Step(code, c)), 0);
  }

  /** After an error is caught the resumed call has its scope, exactly when the error was not a
      function header's: a failing header has not pushed the scope that unwinding pops. */
  lemma ScopeKeptIff(code: Code, dep: seq<nat>, s: State, msg: string, kept: nat)
    requires Typed(code, dep) && Inv(code, dep, s) && s.trys != [] && kept <= |s.arg|
    ensures
      var s' := Raise(s, msg, kept).st;
      |s'.svars| == |s'.sys| <==> !code[s.pc].Function?
  {
    assert TypedAt(code, dep, s.pc);
    LevelsOk(code, dep, Resumes(s), s.trys, |s.trys| - 1);
    if code[s.pc].Function? {
      var rs := Resumes(s);
      assert s.trys[..|s.trys| - 0] == s.trys;
      LevelsOk(code, dep, rs[..|rs| - 1], s.trys, |s.trys| - 1);
    }
  }
}
