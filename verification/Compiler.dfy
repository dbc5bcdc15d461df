/** The compiler as the program that it is: an object whose tables grow as tokens arrive. Each method
is proved to do what the state-passing description of the one-pass compiler says. */
module Compiler {
  import opened Machine
  import opened OnePass
  import opened Options

  class CompState {
    var words: seq<Word>
    var next: Option<bool>
    var control: seq<Entry>
    var addrs: seq<Addr>
    var trys: nat
    var inProc: bool
    var procs: seq<nat>

    constructor ()
      ensures Snapshot() == Initial
    {
      words, next, control, addrs, trys, inProc, procs := [], None, [], [], 0, false, [];
    }

    function Snapshot(): CState
      reads this
    {
      CState(words, next, control, addrs, trys, inProc, procs)
    }

    /** get_address: search the table, and enter the address when it is new. */
    method GetAddress(node: nat, off: nat) returns (i: nat)
      modifies `addrs
      ensures i == Lookup(old(addrs), Addr(node, off)) && addrs == WithAddr(old(addrs), Addr(node, off))
    {
      i := 0;
      while i < |addrs|
        invariant i <= |addrs|
        invariant forall j :: 0 <= j < i ==> addrs[j] != Addr(node, off)
      {
        if addrs[i] == Addr(node, off) {
          LookupIs(addrs, Addr(node, off), i);
          return;
        }
        i := i + 1;
      }
      LookupIs(addrs, Addr(node, off), i);
      addrs := addrs + [Addr(node, off)];
    }

    method PreallocInst()
      modifies `next
      ensures Snapshot() == Prealloc(old(Snapshot()))
    {
      if next.None? {
        next := Some(trys > 0);
      }
    }

    /** new_inst and its place in the list: the preallocated instruction is used when there is one. */
    method NewInst(i: Inst) returns (place: nat)
      modifies `words, `next
      ensures place == |old(words)| && Snapshot() == Emit(old(Snapshot()), i)
    {
      place := |words|;
      var flag := trys > 0;
      if next.Some? {
        flag := flag || next.value;
        next := None;
      }
      words := words + [Word(i, flag)];
    }

    method NewTryPops(n: nat)
      modifies `words, `next
      ensures Snapshot() == EmitTryPops(old(Snapshot()), n)
    {
      var i := n;
      while i > 0
        invariant 0 <= i <= n
        invariant EmitTryPops(Snapshot(), i) == EmitTryPops(old(Snapshot()), n)
      {
        var _ := NewInst(TryPop);
        i := i - 1;
      }
    }

    method InsideLoop() returns (found: bool)
      ensures found == InLoop(control)
    {
      var i := 0;
      while i < |control| && control[i].typ != CBegin
        invariant i <= |control| && InLoop(control[i..]) == InLoop(control)
      {
        i := i + 1;
      }
      found := i < |control|;
    }

    method CountTrysInsideLoop() returns (count: nat)
      ensures count == CountTrys(control)
    {
      count := 0;
      var i := 0;
      while i < |control| && control[i].typ != CBegin
        invariant i <= |control| && count + CountTrys(control[i..]) == CountTrys(control)
      {
        if control[i].typ == CTry {
          count := count + 1;
        }
        i := i + 1;
      }
    }

    method LocateLoop() returns (place: nat)
      ensures place == LoopPlace(control)
    {
      var i := 0;
      while i < |control| && control[i].typ != CBegin
        invariant i <= |control| && LoopPlace(control[i..]) == LoopPlace(control)
      {
        i := i + 1;
      }
      place := if i < |control| then control[i].place else 0;
    }

    /** add_loop_exit: the innermost loop gets one more exit that waits for its end. */
    method AddLoopExit(place: nat)
      modifies `control
      ensures control == AddExits(old(control), [place])
    {
      var i := 0;
      while i < |control| && control[i].typ != CBegin
        invariant i <= |control| && unchanged(`control)
        invariant AddExits(control, [place]) == control[..i] + AddExits(control[i..], [place])
      {
        ExitsPast(control, i, [place]);
        hide AddExits;
        i := i + 1;
      }
      ExitsAt(control, i, [place]);
      if i < |control| {
        control := control[i := control[i].(exits := [place] + control[i].exits)];
      }
    }

    /** pop_loop_exit: the newest exit of the innermost control structure, when it is a loop with one. */
    method PopLoopExit() returns (exit_: Option<nat>)
      modifies `control
      ensures
        if old(control) != [] && old(control)[0].typ == CBegin && old(control)[0].exits != [] then
          && exit_ == Some(old(control)[0].exits[0])
          && control == [old(control)[0].(exits := old(control)[0].exits[1..])] + old(control)[1..]
        else
          exit_ == None && control == old(control)
    {
      if control == [] || control[0].typ != CBegin || control[0].exits == [] {
        return None;
      }
      exit_ := Some(control[0].exits[0]);
      control := [control[0].(exits := control[0].exits[1..])] + control[1..];
    }

    /** resolve_loop_addrs: every exit of the loop gets its address. */
    method ResolveLoopAddrs(where: nat)
      requires control != [] && control[0].typ == CBegin
      modifies `control, `words
      ensures words == PatchAll(old(words), old(control)[0].exits, where)
      ensures control == [old(control)[0].(exits := [])] + old(control)[1..]
    {
      var e := PopLoopExit();
      while e.Some?
        invariant control != [] && control[1..] == old(control)[1..]
        invariant control[0] == old(control)[0].(exits := control[0].exits)
        invariant e.None? ==> control[0].exits == []
        invariant PatchAll(words, (if e.Some? then [e.value] else []) + control[0].exits, where)
                  == PatchAll(old(words), old(control)[0].exits, where)
        decreases if e.Some? then 1 + |control[0].exits| else 0
      {
        SetTargetAt(e.value, where);
        ghost var rest := [e.value] + control[0].exits;
        assert rest[1..] == control[0].exits;
        e := PopLoopExit();
        assert (if e.Some? then [e.value] else []) + control[0].exits == rest[1..];
      }
    }

    method SetTargetAt(place: nat, where: nat)
      modifies `words
      ensures words == Patch(old(words), place, where)
    {
      if place < |words| {
        words := words[place := words[place].(inst := SetTarget(words[place].inst, where))];
      }
    }

    method PopControl() returns (place: nat)
      requires control != []
      modifies `control
      ensures place == old(control)[0].place && control == old(control)[1..]
    {
      place := control[0].place;
      control := control[1..];
    }

    method AddControl(typ: Control, place: nat)
      modifies `control
      ensures control == [Entry(typ, place, [])] + old(control)
    {
      control := [Entry(typ, place, [])] + control;
    }

    /** A jump at place leads to the instruction off after node. */
    method AimAt(place: nat, node: nat, off: nat)
      modifies `words, `addrs
      ensures Snapshot() == Aim(old(Snapshot()), place, Addr(node, off))
    {
      var where := GetAddress(node, off);
      SetTargetAt(place, where);
    }

    method NewJump(i: Inst, node: nat, off: nat) returns (place: nat)
      modifies `words, `next, `addrs
      ensures place == |old(words)| && Snapshot() == EmitTo(old(Snapshot()), i, Addr(node, off))
    {
      var where := GetAddress(node, off);
      place := NewInst(SetTarget(i, where));
    }

    /** UNTIL and REPEAT. */
    method EndLoop(i: Inst)
      requires control != [] && control[0].typ == CBegin
      modifies this
      ensures Snapshot() == CloseLoop(old(Snapshot()), i)
    {
      hide Lookup, WithAddr, PatchAll, SetTarget, Emit;
      var here := |words|;
      PreallocInst();
      var where := GetAddress(here, 1);
      ResolveLoopAddrs(where);
      var head := PopControl();
      var _ := NewJump(i, head, 0);
    }

    /** WHILE and BREAK. */
    method ExitLoop(i: Inst)
      modifies this
      ensures Snapshot() == LeaveLoop(old(Snapshot()), i)
    {
      var n := CountTrysInsideLoop();
      NewTryPops(n);
      var place := NewInst(i);
      AddLoopExit(place);
    }

    predicate InnermostIs(t: Control)
      reads this
    {
      control != [] && control[0].typ == t
    }

    /** The words of loops. */
    method ProcessLoop(t: Token) returns (ok: bool)
      requires t.TBegin? || t.TUntil? || t.TRepeat? || t.TWhile? || t.TBreak? || t.TContinue?
      modifies this
      ensures ok == Process(old(Snapshot()), t).Some?
      ensures ok ==> Snapshot() == Process(old(Snapshot()), t).value
      ensures !ok ==> Snapshot() == old(Snapshot())
    {
      hide Lookup, WithAddr, Patch, PatchAll, AddExits, InLoop, CountTrys, LoopPlace, EmitTryPops, SetTarget, CloseLoop,
          LeaveLoop;
      ok := true;
      match t
      case TBegin =>
        PreallocInst();
        AddControl(CBegin, |words|);
      case TUntil =>
        if !InnermostIs(CBegin) { return false; }
        EndLoop(If(0));
      case TRepeat =>
        if !InnermostIs(CBegin) { return false; }
        EndLoop(Jmp(0));
      case TWhile =>
        var inside := InsideLoop();
        if !inside { return false; }
        ExitLoop(If(0));
      case TBreak =>
        var inside := InsideLoop();
        if !inside { return false; }
        ExitLoop(Jmp(0));
      case TContinue =>
        var inside := InsideLoop();
        if !inside { return false; }
        var n := CountTrysInsideLoop();
        var head := LocateLoop();
        NewTryPops(n);
        PopsKeepTables(old(Snapshot()), n);
        var _ := NewJump(Jmp(0), head, 0);
    }

    /** The instructions CATCH stands for: leave the TRY, jump over the handler, the handler's start. */
    method NewCatch() returns (over: nat, handler: nat)
      modifies `words, `next
      ensures over == |old(words)| + 1 && handler == |old(words)| + 2
      ensures Snapshot() == Emit(Emit(Emit(old(Snapshot()), TryPop), Jmp(0)), Catch)
    {
      var _ := NewInst(TryPop);
      over := NewInst(Jmp(0));
      handler := NewInst(Catch);
    }

    /** The words of TRY blocks. */
    method ProcessTry(t: Token) returns (ok: bool)
      requires t.TTry? || t.TCatch? || t.TEndCatch?
      modifies this
      ensures ok == Process(old(Snapshot()), t).Some?
      ensures ok ==> Snapshot() == Process(old(Snapshot()), t).value
      ensures !ok ==> Snapshot() == old(Snapshot())
    {
      hide Lookup, WithAddr, Patch, PatchAll, AddExits, InLoop, CountTrys, LoopPlace, EmitTryPops, SetTarget, CloseLoop,
          LeaveLoop;
      ok := true;
      match t
      case TTry =>
        var place := NewInst(Inst.Try(0));
        AddControl(CTry, place);
        trys := trys + 1;
      case TCatch =>
        if !InnermostIs(CTry) || trys == 0 { return false; }
        var over, handler := NewCatch();
        trys := trys - 1;
        var eef := PopControl();
        AddControl(CCatch, over);
        AimAt(eef, handler, 0);
      case TEndCatch =>
        if !InnermostIs(CCatch) { return false; }
        PreallocInst();
        var eef := PopControl();
        AimAt(eef, |words|, 0);
    }

    /** process_special and the words around it: one token, or an error. */
    method ProcessToken(t: Token) returns (ok: bool)
      modifies this
      ensures ok == Process(old(Snapshot()), t).Some?
      ensures ok ==> Snapshot() == Process(old(Snapshot()), t).value
      ensures !ok ==> Snapshot() == old(Snapshot())
    {
      hide Lookup, WithAddr, Patch, PatchAll, AddExits, InLoop, CountTrys, LoopPlace, EmitTryPops, SetTarget, CloseLoop,
          LeaveLoop;
      ok := true;
      if t.TBegin? || t.TUntil? || t.TRepeat? || t.TWhile? || t.TBreak? || t.TContinue? {
        ok := ProcessLoop(t);
        return;
      }
      if t.TTry? || t.TCatch? || t.TEndCatch? {
        ok := ProcessTry(t);
        return;
      }
      match t
      case TColon(args, vars) =>
        if inProc { return false; }
        var place := NewInst(Function(args, vars));
        inProc := true;
        procs := procs + [place];
      case TSemi =>
        if control != [] || !inProc { return false; }
        var _ := NewInst(Ret);
        inProc := false;
      case TIf =>
        var place := NewInst(If(0));
        AddControl(CIf, place);
      case TElse =>
        if !InnermostIs(CIf) { return false; }
        var place := NewInst(Jmp(0));
        var eef := PopControl();
        AddControl(CElse, place);
        AimAt(eef, place, 1);
      case TThen =>
        if !InnermostIs(CIf) && !InnermostIs(CElse) { return false; }
        PreallocInst();
        var eef := PopControl();
        AimAt(eef, |words|, 0);
      case TExit =>
        NewTryPops(trys);
        var _ := NewInst(Ret);
      case TCall(f) =>
        if f >= |procs| { return false; }
        var _ := NewJump(Inst.Exec(0), procs[f], 0);
      case TWord(i) =>
        if !Local(i) || i.If? { return false; }
        var _ := NewInst(i);
    }

    method CompileAll(ts: seq<Token>) returns (ok: bool)
      modifies this
      ensures ok == Compile(old(Snapshot()), ts).Some?
      ensures ok ==> Snapshot() == Compile(old(Snapshot()), ts).value
    {
      hide Process;
      var i := 0;
      while i < |ts|
        invariant i <= |ts| && Compile(Snapshot(), ts[i..]) == Compile(old(Snapshot()), ts)
      {
        assert ts[i..][1..] == ts[i + 1..];
        ok := ProcessToken(ts[i]);
        if !ok { return; }
        i := i + 1;
      }
      ok := true;
    }

    /** fix_addresses and copy_program. */
    method CopyProgram() returns (code: Code)
      ensures code == FixAddresses(Snapshot())
    {
      code := [];
      var i := 0;
      while i < |words|
        invariant i <= |words| && |code| == i
        invariant forall j :: 0 <= j < i ==> code[j] == ResolveInst(addrs, words[j].inst)
      {
        code := code + [ResolveInst(addrs, words[i].inst)];
        i := i + 1;
      }
    }
  }

  /** Adding exits goes past an entry that is no loop's, */
  lemma {:induction false} ExitsPast(control: seq<Entry>, i: nat, exits: seq<nat>)
    requires i < |control| && control[i].typ != CBegin
    ensures control[..i] + AddExits(control[i..], exits) == control[..i + 1] + AddExits(control[i + 1..], exits)
  {
    var u := control[i..];
    assert u[1..] == control[i + 1..] && AddExits(u, exits) == [control[i]] + AddExits(u[1..], exits);
  }

  /** and changes the first loop's. */
  lemma {:induction false} ExitsAt(control: seq<Entry>, i: nat, exits: seq<nat>)
    requires i <= |control| && (i < |control| ==> control[i].typ == CBegin)
    ensures
      control[..i] + AddExits(control[i..], exits)
      == if i < |control| then control[i := control[i].(exits := exits + control[i].exits)] else control
  {}

  lemma {:induction false} LookupIs(addrs: seq<Addr>, a: Addr, i: nat)
    requires i <= |addrs| && (i < |addrs| ==> addrs[i] == a)
    requires forall j :: 0 <= j < i ==> addrs[j] != a
    ensures Lookup(addrs, a) == i
  {
    var j := Lookup(addrs, a);
    if j < i {
      assert false;
    }
  }

  lemma {:induction false} PopsKeepTables(s: CState, n: nat)
    ensures EmitTryPops(s, n).control == s.control && EmitTryPops(s, n).addrs == s.addrs
    decreases n
  {
    if n > 0 {
      PopsKeepTables(Emit(s, TryPop), n - 1);
    }
  }
}
