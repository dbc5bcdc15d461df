/** The one-pass compiler, patching jumps as it goes, produces the recursive layout. */
module Backpatch {
  import opened Machine
  import S = Source
  import L = Layout
  import opened OnePass
  import opened Options

  /** The words of a structured command, in the order they are written. */
  function Toks(c: S.Cmd): seq<Token> {
    match c
    case Skip => []
    case Seq(a, b) => Toks(a) + Toks(b)
    case Word(i) => [TWord(i)]
    case Call(f) => [TCall(f)]
    case IfThen(t) => [TIf] + Toks(t) + [TThen]
    case IfElse(t, e) => [TIf] + Toks(t) + [TElse] + Toks(e) + [TThen]
    case LoopUntil(b) => [TBegin] + Toks(b) + [TUntil]
    case LoopRepeat(b) => [TBegin] + Toks(b) + [TRepeat]
    case While => [TWhile]
    case Break => [TBreak]
    case Continue => [TContinue]
    case Exit => [TExit]
    case TryCatch(b, h) => [TTry] + Toks(b) + [TCatch] + Toks(h) + [TEndCatch]
  }

  function ProcToks(p: S.Proc): seq<Token> {
    [TColon(p.args, p.vars)] + Toks(p.body) + [TSemi]
  }

  function ProgToks(p: S.Prog): seq<Token> {
    if p == [] then [] else ProgToks(p[..|p| - 1]) + ProcToks(p[|p| - 1])
  }

  /** Where the exits of the enclosing loop lie in the code of c, newest first. */
  function Exits(c: S.Cmd, base: nat, inLoop: nat, inProc: nat): seq<nat> {
    match c
    case Seq(a, b) =>
      Exits(b, base + L.Size(a, inLoop, inProc), inLoop, inProc) + Exits(a, base, inLoop, inProc)
    case IfThen(t) => Exits(t, base + 1, inLoop, inProc)
    case IfElse(t, e) =>
      Exits(e, base + 2 + L.Size(t, inLoop, inProc), inLoop, inProc) + Exits(t, base + 1, inLoop, inProc)
    case While => [base + inLoop]
    case Break => [base + inLoop]
    case TryCatch(b, h) =>
      Exits(h, base + 4 + L.Size(b, inLoop + 1, inProc + 1), inLoop, inProc)
      + Exits(b, base + 1, inLoop + 1, inProc + 1)
    case _ => []
  }

  /** How many TRYs of the procedure are active before each instruction of c. */
  function Nest(c: S.Cmd, inLoop: nat, inProc: nat): (r: seq<nat>)
    ensures |r| == L.Size(c, inLoop, inProc)
  {
    match c
    case Skip => []
    case Seq(a, b) => Nest(a, inLoop, inProc) + Nest(b, inLoop, inProc)
    case Word(_) => [inProc]
    case Call(_) => [inProc]
    case IfThen(t) => [inProc] + Nest(t, inLoop, inProc)
    case IfElse(t, e) => [inProc] + Nest(t, inLoop, inProc) + [inProc] + Nest(e, inLoop, inProc)
    case LoopUntil(b) => Nest(b, 0, inProc) + [inProc]
    case LoopRepeat(b) => Nest(b, 0, inProc) + [inProc]
    case While => Falling(inProc, inLoop)
    case Break => Falling(inProc, inLoop)
    case Continue => Falling(inProc, inLoop)
    case Exit => Falling(inProc, inProc)
    case TryCatch(b, h) => TryNest(inProc, Nest(b, inLoop + 1, inProc + 1), Nest(h, inLoop, inProc))
  }

  function TryNest(inProc: nat, body: seq<nat>, handler: seq<nat>): seq<nat> {
    [inProc] + body + [inProc + 1, inProc, inProc + 1] + handler
  }

  /** n TRYPOPs and a jump. */
  function Falling(inProc: nat, n: nat): seq<nat> {
    seq(n + 1, i requires 0 <= i <= n => if i <= inProc then inProc - i else 0)
  }

  /** An emitted instruction as it will be once the exits of the enclosing loop lead to brk. */
  function Fill(i: Inst, addrs: seq<Addr>, pending: bool, brk: nat): Inst {
    if pending then SetTarget(i, brk) else ResolveInst(addrs, i)
  }

  ghost predicate FilledAt(w: Word, addrs: seq<Addr>, pending: bool, brk: nat, i: Inst, nest: nat) {
    && Fill(w.inst, addrs, pending, brk) == i
    && (HasTarget(w.inst) && !pending ==> w.inst.target < |addrs|)
    && (nest > 0 ==> w.inTry)
  }

  /** s' is s with code emitted after it, whose pending exits are the given ones. */
  ghost predicate Done(s: CState, s': CState, code: Code, nest: seq<nat>, exits: seq<nat>, brk: nat) {
    && |nest| == |code|
    && |s'.words| == |s.words| + |code|
    && (forall j :: 0 <= j < |s.words| ==> s'.words[j] == s.words[j])
    && s.addrs <= s'.addrs
    && s'.control == AddExits(s.control, exits)
    && s'.trys == s.trys && s'.inProc == s.inProc && s'.procs == s.procs
    && (forall x :: x in exits ==> |s.words| <= x < |s'.words|)
    && (forall j :: |s.words| <= j < |s'.words| ==>
          FilledAt(s'.words[j], s'.addrs, j in exits, brk, code[j - |s.words|], nest[j - |s.words|]))
  }

  /** The state fits the place: its control stack counts the TRYs and knows the loop. */
  ghost predicate Fits(s: CState, w: L.Place, entry: seq<nat>, inLoop: bool, self: nat) {
    && InLoop(s.control) == inLoop
    && CountTrys(s.control) == w.inLoop
    && s.trys == w.inProc
    && (inLoop ==> LoopPlace(s.control) == w.cont)
    && self < |s.procs| && s.procs <= entry
  }

  // ----- the building blocks -----

  lemma FilledMore(w: Word, addrs: seq<Addr>, addrs': seq<Addr>, pending: bool, brk: nat, i: Inst, nest: nat)
    requires FilledAt(w, addrs, pending, brk, i, nest) && addrs <= addrs'
    ensures FilledAt(w, addrs', pending, brk, i, nest)
  {}

  lemma {:induction false} AddExitsNothing(control: seq<Entry>)
    ensures AddExits(control, []) == control
  {
    if control != [] {
      assert [] + control[0].exits == control[0].exits;
      assert [control[0]] + control[1..] == control;
      AddExitsNothing(control[1..]);
    }
  }

  lemma {:induction false} AddExitsTwice(control: seq<Entry>, a: seq<nat>, b: seq<nat>)
    ensures AddExits(AddExits(control, a), b) == AddExits(control, b + a)
  {
    if control != [] {
      if control[0].typ == CBegin {
        assert b + (a + control[0].exits) == (b + a) + control[0].exits;
      } else {
        AddExitsTwice(control[1..], a, b);
      }
    }
  }

  lemma {:induction false} AddExitsKeeps(control: seq<Entry>, a: seq<nat>)
    ensures
      var c := AddExits(control, a);
      && InLoop(c) == InLoop(control) && CountTrys(c) == CountTrys(control) && LoopPlace(c) == LoopPlace(control)
      && |c| == |control|
  {
    if control != [] && control[0].typ != CBegin {
      AddExitsKeeps(control[1..], a);
    }
  }

  lemma {:induction false} CompileAppend(s: CState, a: seq<Token>, b: seq<Token>)
    ensures Compile(s, a + b)
         == if Compile(s, a).None? then None else Compile(Compile(s, a).value, b)
    decreases |a|
  {
    if a == [] {
      assert a + b == b;
    } else {
      assert (a + b)[1..] == a[1..] + b;
      var r := Process(s, a[0]);
      if r.Some? {
        CompileAppend(r.value, a[1..], b);
      }
    }
  }

  lemma CompileOne(s: CState, t: Token)
    ensures Compile(s, [t]) == Process(s, t)
  {
    if Process(s, t).Some? {
      assert Compile(Process(s, t).value, [t][1..]) == Process(s, t);
    }
  }

  lemma DoneSeq(s: CState, s1: CState, s2: CState, c1: Code, c2: Code, n1: seq<nat>, n2: seq<nat>,
                e1: seq<nat>, e2: seq<nat>, brk: nat)
    requires Done(s, s1, c1, n1, e1, brk) && Done(s1, s2, c2, n2, e2, brk)
    ensures Done(s, s2, c1 + c2, n1 + n2, e2 + e1, brk)
  {
    AddExitsTwice(s.control, e1, e2);
    forall j | |s.words| <= j < |s2.words|
      ensures FilledAt(s2.words[j], s2.addrs, j in e2 + e1, brk, (c1 + c2)[j - |s.words|], (n1 + n2)[j - |s.words|])
    {
      if j < |s1.words| {
        FilledMore(s1.words[j], s1.addrs, s2.addrs, j in e1, brk, c1[j - |s.words|], n1[j - |s.words|]);
      }
    }
  }

  /** Emitting an instruction without a target. */
  lemma DoneEmit(s: CState, i: Inst, brk: nat)
    requires !HasTarget(i)
    ensures Done(s, Emit(s, i), [i], [s.trys], [], brk)
  {
    AddExitsNothing(s.control);
  }

  /** Emitting a jump to an address. */
  lemma DoneEmitTo(s: CState, i: Inst, a: Addr, brk: nat)
    requires HasTarget(i)
    ensures Done(s, EmitTo(s, i, a), [SetTarget(i, a.node + a.off)], [s.trys], [], brk)
  {
    AddExitsNothing(s.control);
  }

  lemma {:induction false} DoneTryPops(s: CState, n: nat, brk: nat)
    ensures Done(s, EmitTryPops(s, n), L.TryPops(n), seq(n, _ => s.trys), [], brk)
    decreases n
  {
    AddExitsNothing(s.control);
    if n > 0 {
      DoneEmit(s, TryPop, brk);
      DoneTryPops(Emit(s, TryPop), n - 1, brk);
      DoneSeq(s, Emit(s, TryPop), EmitTryPops(s, n), [TryPop], L.TryPops(n - 1), [s.trys], seq(n - 1, _ => s.trys), [],
          [], brk);
      assert [TryPop] + L.TryPops(n - 1) == L.TryPops(n);
      assert [s.trys] + seq(n - 1, _ => s.trys) == seq(n, _ => s.trys);
    }
  }

  /** A smaller nesting claim follows from a larger one. */
  lemma DoneNest(s: CState, s': CState, code: Code, nest: seq<nat>, nest': seq<nat>, exits: seq<nat>, brk: nat)
    requires Done(s, s', code, nest, exits, brk)
    requires |nest'| == |nest| && forall j :: 0 <= j < |nest| ==> nest'[j] <= nest[j]
    ensures Done(s, s', code, nest', exits, brk)
  {}

  lemma {:induction false} PatchAllAt(words: seq<Word>, places: seq<nat>, target: nat, j: nat)
    requires j < |words|
    ensures |PatchAll(words, places, target)| == |words|
    ensures PatchAll(words, places, target)[j]
         == if j in places then words[j].(inst := SetTarget(words[j].inst, target)) else words[j]
    decreases |places|
  {
    if places != [] {
      PatchAllAt(Patch(words, places[0], target), places[1..], target, j);
    }
  }

  // ----- one lemma for each control structure -----

  /** IF ... THEN around a piece, and TRY ... or ELSE ... in the same way: an instruction emitted
      with a control entry, and patched once the piece is done. */
  lemma {:induction false} DoneOpenClose(s: CState, i: Inst, typ: Control, s1: CState, s2: CState, s3: CState, a: Addr,
                      code: Code, nest: seq<nat>, exits: seq<nat>, brk: nat)
    requires HasTarget(i) && typ != CBegin
    requires |s1.words| == |s.words| + 1 && s1.words[..|s.words|] == s.words
    requires s1.words[|s.words|].inst == i && (s.trys > 0 ==> s1.words[|s.words|].inTry)
    requires s1.addrs == s.addrs && s1.inProc == s.inProc && s1.procs == s.procs
    requires s1.control == [Entry(typ, |s.words|, [])] + s.control
    requires Done(s1, s2, code, nest, exits, brk)
    requires s3.words == Patch(s2.words, |s.words|, Lookup(s2.addrs, a)) && s3.addrs == WithAddr(s2.addrs, a)
    requires s3.control == s2.control[1..]
    requires s3.trys == s.trys && s3.inProc == s2.inProc && s3.procs == s2.procs
    ensures Done(s, s3, [SetTarget(i, a.node + a.off)] + code, [s.trys] + nest, exits, brk)
    ensures s2.control == [Entry(typ, |s.words|, [])] + AddExits(s.control, exits)
  {
    hide ResolveInst, SetTarget;
    assert s1.control[1..] == s.control;
    assert forall j :: 0 <= j < |s.words| ==> s1.words[j] == s1.words[..|s.words|][j];
    var code', nest' := [SetTarget(i, a.node + a.off)] + code, [s.trys] + nest;
    assert s2.words[|s.words|] == s1.words[|s.words|];
    forall j | |s.words| <= j < |s3.words|
      ensures FilledAt(s3.words[j], s3.addrs, j in exits, brk, code'[j - |s.words|], nest'[j - |s.words|])
    {
      if j == |s.words| {
        assert j !in exits;
        AimedAt(i, Lookup(s2.addrs, a), s3.addrs, a);
      } else {
        assert code'[j - |s.words|] == code[j - |s1.words|];
        FilledMore(s2.words[j], s2.addrs, s3.addrs, j in exits, brk, code[j - |s1.words|], nest[j - |s1.words|]);
      }
    }
  }

  lemma OpenControl(e: Entry, control: seq<Entry>, s1: CState, s2: CState, code: Code, nest: seq<nat>, exits: seq<nat>,
      brk: nat)
    requires e.typ != CBegin && s1.control == [e] + control && Done(s1, s2, code, nest, exits, brk)
    ensures s2.control == [e] + AddExits(control, exits)
    ensures s2.trys == s1.trys && s2.inProc == s1.inProc && s2.procs == s1.procs
  {
    assert s1.control[1..] == control;
  }

  lemma AimedAt(i: Inst, k: nat, addrs: seq<Addr>, a: Addr)
    requires k < |addrs| && addrs[k] == a
    ensures ResolveInst(addrs, SetTarget(i, k)) == SetTarget(i, a.node + a.off)
    ensures HasTarget(SetTarget(i, k)) ==> SetTarget(i, k).target == k
  {}

  lemma LoopBodyFilled(w: Word, patch: bool, addrs: seq<Addr>, addrs': seq<Addr>, k: nat, end: Addr, i: Inst, nest: nat,
      brk: nat)
    requires FilledAt(w, addrs, patch, end.node + end.off, i, nest)
    requires addrs <= addrs' && k < |addrs'| && addrs'[k] == end
    ensures FilledAt(Patched(w, patch, k), addrs', false, brk, i, nest)
  {
    if patch {
      AimedAt(w.inst, k, addrs', end);
    }
  }

  /** BEGIN, the body, and its control entry with the exits found in the body. */
  lemma LoopControl(s: CState, s2: CState, code: Code, nest: seq<nat>, exits: seq<nat>, brk: nat)
    requires Done(Process(s, TBegin).value, s2, code, nest, exits, brk)
    ensures s2.control == [Entry(CBegin, |s.words|, exits)] + s.control
    ensures Done(s.(control := []), s2.(control := []), code, nest, exits, brk)
  {
    hide FilledAt;
    var s1 := Process(s, TBegin).value;
    assert s1.control[1..] == s.control;
    assert exits + [] == exits;
  }

  /** BEGIN ... UNTIL and BEGIN ... REPEAT. */
  lemma DoneLoop(s: CState, i: Inst, s2: CState, code: Code, nest: seq<nat>, exits: seq<nat>, brk: nat)
    requires i == If(0) || i == Jmp(0)
    requires s2.control == [Entry(CBegin, |s.words|, exits)] + s.control
    requires Done(s.(control := []), s2.(control := []), code, nest, exits, |s.words| + |code| + 1)
    ensures Done(s, CloseLoop(s2, i), code + [SetTarget(i, |s.words|)], nest + [s.trys], [], brk)
  {
    hide FilledAt, SetTarget, CloseLoop, Lookup, AddExits, PatchAll;
    AddExitsNothing(s.control);
    var end, back := Addr(|s2.words|, 1), Addr(|s.words|, 0);
    var k := Lookup(s2.addrs, end);
    var s3 := CloseLoop(s2, i);
    LoopWords(s2, i, exits, k);
    assert s2.control[1..] == s.control;
    var code', nest' := code + [SetTarget(i, |s.words|)], nest + [s.trys];
    forall j | |s.words| <= j < |s3.words|
      ensures FilledAt(s3.words[j], s3.addrs, false, brk, code'[j - |s.words|], nest'[j - |s.words|])
    {
      if j == |s2.words| {
        LastFilled(s3.words[j], i, Lookup(WithAddr(s2.addrs, end), back), s3.addrs, back, s.trys, brk);
      } else {
        LoopBodyFilled(s2.words[j], j in exits, s2.addrs, s3.addrs, k, end, code[j - |s.words|], nest[j - |s.words|], brk);
      }
    }
  }

  lemma LastFilled(w: Word, i: Inst, k: nat, addrs: seq<Addr>, back: Addr, nest: nat, brk: nat)
    requires w.inst == SetTarget(i, k) && k < |addrs| && addrs[k] == back && (nest > 0 ==> w.inTry)
    ensures FilledAt(w, addrs, false, brk, SetTarget(i, back.node + back.off), nest)
  {
    AimedAt(i, k, addrs, back);
  }

  function Patched(w: Word, patch: bool, k: nat): Word {
    if patch then w.(inst := SetTarget(w.inst, k)) else w
  }

  /** What CloseLoop leaves in the list. */
  lemma LoopWords(s2: CState, i: Inst, exits: seq<nat>, k: nat)
    requires s2.control != [] && s2.control[0].exits == exits
    requires k == Lookup(s2.addrs, Addr(|s2.words|, 1))
    ensures |CloseLoop(s2, i).words| == |s2.words| + 1
    ensures forall j :: 0 <= j < |s2.words| ==> CloseLoop(s2, i).words[j] == Patched(s2.words[j], j in exits, k)
    ensures
      var s3 := CloseLoop(s2, i);
      var end, back := Addr(|s2.words|, 1), Addr(s2.control[0].place, 0);
      && s3.words[|s2.words|].inst == SetTarget(i, Lookup(WithAddr(s2.addrs, end), back))
      && (s2.trys > 0 ==> s3.words[|s2.words|].inTry)
      && s3.addrs == WithAddr(WithAddr(s2.addrs, end), back)
      && s3.control == s2.control[1..]
      && s3.trys == s2.trys && s3.inProc == s2.inProc && s3.procs == s2.procs
  {
    hide SetTarget;
    var words := PatchAll(s2.words, exits, k);
    PatchAllLength(s2.words, exits, k);
    forall j | 0 <= j < |s2.words|
      ensures CloseLoop(s2, i).words[j] == Patched(s2.words[j], j in exits, k)
    {
      PatchAllAt(s2.words, exits, k, j);
    }
  }

  lemma {:induction false} PatchAllLength(words: seq<Word>, places: seq<nat>, target: nat)
    ensures |PatchAll(words, places, target)| == |words|
    decreases |places|
  {
    if places != [] {
      PatchAllLength(Patch(words, places[0], target), places[1..], target);
    }
  }

  // ----- compiling a command -----

  /** Compiling the words of a command emits its layout, whatever is pending being patched later. */
  lemma {:induction false} CompileCmd(s: CState, c: S.Cmd, w: L.Place, entry: seq<nat>, inLoop: bool, self: nat)
      returns (s': CState)
    requires Fits(s, w, entry, inLoop, self)
    requires S.Nested(c, inLoop, self)
    ensures Compile(s, Toks(c)) == Some(s')
    ensures Done(s, s', L.Lay(c, |s.words|, w, entry), Nest(c, w.inLoop, w.inProc),
                 Exits(c, |s.words|, w.inLoop, w.inProc), w.brk)
    ensures Fits(s', w, entry, inLoop, self)
    decreases c
  {
    match c
    case Skip =>
      AddExitsNothing(s.control);
      s' := s;
    case Seq(a, b) =>
      s' := CompileSeq(s, a, b, w, entry, inLoop, self);
    case IfThen(t) =>
      s' := CompileIfThen(s, t, w, entry, inLoop, self);
    case IfElse(t, e) =>
      s' := CompileIfElse(s, t, e, w, entry, inLoop, self);
    case LoopUntil(b) =>
      s' := CompileLoop(s, b, If(0), w, entry, inLoop, self);
    case LoopRepeat(b) =>
      s' := CompileLoop(s, b, Jmp(0), w, entry, inLoop, self);
    case TryCatch(b, h) =>
      s' := CompileTry(s, b, h, w, entry, inLoop, self);
    case _ =>
      s' := CompileLeaf(s, c, w, entry, inLoop, self);
  }

  lemma {:induction false} CompileSeq(s: CState, a: S.Cmd, b: S.Cmd, w: L.Place, entry: seq<nat>, inLoop: bool, self: nat)
    returns (s': CState)
    requires Fits(s, w, entry, inLoop, self)
    requires S.Nested(a, inLoop, self) && S.Nested(b, inLoop, self)
    ensures Compile(s, Toks(S.Seq(a, b))) == Some(s')
    ensures Done(s, s', L.Lay(S.Seq(a, b), |s.words|, w, entry), Nest(S.Seq(a, b), w.inLoop, w.inProc),
                 Exits(S.Seq(a, b), |s.words|, w.inLoop, w.inProc), w.brk)
    ensures Fits(s', w, entry, inLoop, self)
    decreases S.Seq(a, b), 0
  {
    hide Compile, FilledAt, Done, Fits, Toks, L.Lay, Nest, Exits, L.Size, S.Nested;
    SeqUnfold(a, b, |s.words|, w, entry);
    var s1 := CompileCmd(s, a, w, entry, inLoop, self);
    DoneLength(s, s1, L.Lay(a, |s.words|, w, entry), Nest(a, w.inLoop, w.inProc), Exits(a, |s.words|, w.inLoop,
        w.inProc), w.brk);
    s' := CompileCmd(s1, b, w, entry, inLoop, self);
    CompileAppend(s, Toks(a), Toks(b));
    DoneSeq(s, s1, s', L.Lay(a, |s.words|, w, entry), L.Lay(b, |s1.words|, w, entry),
            Nest(a, w.inLoop, w.inProc), Nest(b, w.inLoop, w.inProc),
            Exits(a, |s.words|, w.inLoop, w.inProc), Exits(b, |s1.words|, w.inLoop, w.inProc), w.brk);
  }

  lemma DoneLength(s: CState, s': CState, code: Code, nest: seq<nat>, exits: seq<nat>, brk: nat)
    requires Done(s, s', code, nest, exits, brk)
    ensures |s'.words| == |s.words| + |code|
  {}

  lemma {:induction false} SeqUnfold(a: S.Cmd, b: S.Cmd, base: nat, w: L.Place, entry: seq<nat>)
    ensures Toks(S.Seq(a, b)) == Toks(a) + Toks(b)
    ensures L.Lay(S.Seq(a, b), base, w, entry)
         == L.Lay(a, base, w, entry) + L.Lay(b, base + L.Size(a, w.inLoop, w.inProc), w, entry)
    ensures Nest(S.Seq(a, b), w.inLoop, w.inProc) == Nest(a, w.inLoop, w.inProc) + Nest(b, w.inLoop, w.inProc)
    ensures Exits(S.Seq(a, b), base, w.inLoop, w.inProc)
         == Exits(b, base + L.Size(a, w.inLoop, w.inProc), w.inLoop, w.inProc) + Exits(a, base, w.inLoop, w.inProc)
  {
    hide L.Lay, L.Size, Exits, Nest;
    SeqLay(a, b, base, w, entry);
    SeqExits(a, b, base, w);
    SeqNest(a, b, w.inLoop, w.inProc);
  }

  lemma {:induction false} SeqNest(a: S.Cmd, b: S.Cmd, inLoop: nat, inProc: nat)
    ensures Nest(S.Seq(a, b), inLoop, inProc) == Nest(a, inLoop, inProc) + Nest(b, inLoop, inProc)
  {
    hide L.Size;
  }

  lemma {:induction false} SeqLay(a: S.Cmd, b: S.Cmd, base: nat, w: L.Place, entry: seq<nat>)
    ensures L.Lay(S.Seq(a, b), base, w, entry)
         == L.Lay(a, base, w, entry) + L.Lay(b, base + L.Size(a, w.inLoop, w.inProc), w, entry)
  {
    hide L.Size;
  }

  lemma {:induction false} SeqExits(a: S.Cmd, b: S.Cmd, base: nat, w: L.Place)
    ensures Exits(S.Seq(a, b), base, w.inLoop, w.inProc)
         == Exits(b, base + L.Size(a, w.inLoop, w.inProc), w.inLoop, w.inProc) + Exits(a, base, w.inLoop, w.inProc)
  {
    hide L.Size;
  }

  /** A state with more exits recorded fits the same place. */
  lemma FitsMore(s: CState, s': CState, w: L.Place, entry: seq<nat>, inLoop: bool, self: nat,
                 code: Code, nest: seq<nat>, exits: seq<nat>, brk: nat)
    requires Fits(s, w, entry, inLoop, self) && Done(s, s', code, nest, exits, brk)
    ensures Fits(s', w, entry, inLoop, self)
  {
    AddExitsKeeps(s.control, exits);
  }

  lemma DoneLeaveLoop(s: CState, i: Inst, brk: nat)
    requires HasTarget(i)
    ensures
      var n := CountTrys(s.control);
      Done(s, LeaveLoop(s, i), L.TryPops(n) + [SetTarget(i, brk)], Falling(s.trys, n), [|s.words| + n], brk)
  {
    hide FilledAt;
    var n := CountTrys(s.control);
    var s1 := EmitTryPops(s, n);
    DoneTryPops(s, n, brk);
    AddExitsNothing(s.control);
    var s2 := LeaveLoop(s, i);
    assert Done(s1, s2, [SetTarget(i, brk)], [s.trys], [|s.words| + n], brk) by {
      PendingFilled(s2.words[|s1.words|], s2.addrs, i, brk, s.trys);
    }
    DoneSeq(s, s1, s2, L.TryPops(n), [SetTarget(i, brk)], seq(n, _ => s.trys), [s.trys], [], [|s.words| + n], brk);
    assert [|s.words| + n] + [] == [|s.words| + n];
    DoneNest(s, s2, L.TryPops(n) + [SetTarget(i, brk)], seq(n, _ => s.trys) + [s.trys], Falling(s.trys, n),
        [|s.words| + n], brk);
  }

  lemma PendingFilled(w: Word, addrs: seq<Addr>, i: Inst, brk: nat, nest: nat)
    requires w.inst == i && (nest > 0 ==> w.inTry)
    ensures FilledAt(w, addrs, true, brk, SetTarget(i, brk), nest)
  {}

  lemma {:induction false} DonePopsThen(s: CState, n: nat, s2: CState, i: Inst, brk: nat)
    requires Done(EmitTryPops(s, n), s2, [i], [s.trys], [], brk)
    ensures Done(s, s2, L.TryPops(n) + [i], Falling(s.trys, n), [], brk)
  {
    var s1 := EmitTryPops(s, n);
    var none: seq<nat> := [];
    assert none + none == none;
    hide Done;
    DoneTryPops(s, n, brk);
    DoneSeq(s, s1, s2, L.TryPops(n), [i], seq(n, _ => s.trys), [s.trys], [], [], brk);
    DoneNest(s, s2, L.TryPops(n) + [i], seq(n, _ => s.trys) + [s.trys], Falling(s.trys, n), [], brk);
  }

  lemma LeafUnfold(c: S.Cmd, base: nat, w: L.Place, entry: seq<nat>)
    ensures c.Word? ==> Toks(c) == [TWord(c.i)] && L.Lay(c, base, w, entry) == [c.i]
    ensures c.Call? ==> Toks(c) == [TCall(c.f)] && L.Lay(c, base, w, entry) == [Inst.Exec(if c.f < |entry| then entry[c.f] else 0)]
    ensures c.Word? || c.Call? ==> Nest(c, w.inLoop, w.inProc) == [w.inProc]
    ensures c.While? ==> Toks(c) == [TWhile] && L.Lay(c, base, w, entry) == L.TryPops(w.inLoop) + [If(w.brk)]
    ensures c.Break? ==> Toks(c) == [TBreak] && L.Lay(c, base, w, entry) == L.TryPops(w.inLoop) + [Jmp(w.brk)]
    ensures c.Continue? ==> Toks(c) == [TContinue] && L.Lay(c, base, w, entry) == L.TryPops(w.inLoop) + [Jmp(w.cont)]
    ensures c.While? || c.Break? || c.Continue? ==> Nest(c, w.inLoop, w.inProc) == Falling(w.inProc, w.inLoop)
    ensures c.Exit? ==> Toks(c) == [TExit] && L.Lay(c, base, w, entry) == L.TryPops(w.inProc) + [Ret]
                        && Nest(c, w.inLoop, w.inProc) == Falling(w.inProc, w.inProc)
    ensures c.Word? || c.Call? || c.Continue? || c.Exit? ==> Exits(c, base, w.inLoop, w.inProc) == []
    ensures c.While? || c.Break? ==> Exits(c, base, w.inLoop, w.inProc) == [base + w.inLoop]
  {}

  lemma DoneContinue(s: CState, w: L.Place)
    requires InLoop(s.control) && CountTrys(s.control) == w.inLoop && s.trys == w.inProc && LoopPlace(s.control) == w.cont
    ensures Process(s, TContinue).Some?
    ensures Done(s, Process(s, TContinue).value, L.TryPops(w.inLoop) + [Jmp(w.cont)], Falling(w.inProc, w.inLoop), [], w.brk)
  {
    hide Done;
    TryPopsKeep(s, w.inLoop);
    DoneEmitTo(EmitTryPops(s, w.inLoop), Jmp(0), Addr(w.cont, 0), w.brk);
    DonePopsThen(s, w.inLoop, Process(s, TContinue).value, Jmp(w.cont), w.brk);
  }

  lemma DoneExit(s: CState, w: L.Place)
    requires s.trys == w.inProc
    ensures Process(s, TExit).Some?
    ensures Done(s, Process(s, TExit).value, L.TryPops(w.inProc) + [Ret], Falling(w.inProc, w.inProc), [], w.brk)
  {
    hide Done;
    TryPopsKeep(s, w.inProc);
    DoneEmit(EmitTryPops(s, w.inProc), Ret, w.brk);
    DonePopsThen(s, w.inProc, Process(s, TExit).value, Ret, w.brk);
  }

  lemma CompileLeaf(s: CState, c: S.Cmd, w: L.Place, entry: seq<nat>, inLoop: bool, self: nat) returns (s': CState)
    requires Fits(s, w, entry, inLoop, self)
    requires S.Nested(c, inLoop, self)
    requires c.Word? || c.Call? || c.While? || c.Break? || c.Continue? || c.Exit?
    ensures Compile(s, Toks(c)) == Some(s')
    ensures Done(s, s', L.Lay(c, |s.words|, w, entry), Nest(c, w.inLoop, w.inProc),
                 Exits(c, |s.words|, w.inLoop, w.inProc), w.brk)
    ensures Fits(s', w, entry, inLoop, self)
  {
    hide FilledAt, Done, Compile, Toks, L.Lay, Nest, Exits, L.Size, Process, Fits;
    LeafUnfold(c, |s.words|, w, entry);
    LeafDone(s, c, w, entry, inLoop, self);
    CompileOne(s, Toks(c)[0]);
    s' := Process(s, Toks(c)[0]).value;
    FitsMore(s, s', w, entry, inLoop, self, L.Lay(c, |s.words|, w, entry), Nest(c, w.inLoop, w.inProc),
             Exits(c, |s.words|, w.inLoop, w.inProc), w.brk);
  }

  lemma LeafDone(s: CState, c: S.Cmd, w: L.Place, entry: seq<nat>, inLoop: bool, self: nat)
    requires Fits(s, w, entry, inLoop, self)
    requires S.Nested(c, inLoop, self)
    requires c.Word? || c.Call? || c.While? || c.Break? || c.Continue? || c.Exit?
    ensures |Toks(c)| == 1 && Process(s, Toks(c)[0]).Some?
    ensures Done(s, Process(s, Toks(c)[0]).value, L.Lay(c, |s.words|, w, entry), Nest(c, w.inLoop, w.inProc),
                 Exits(c, |s.words|, w.inLoop, w.inProc), w.brk)
  {
    hide FilledAt, Done, Toks, L.Lay, Nest, Exits, L.Size, LeaveLoop, EmitTryPops, EmitTo, Emit;
    LeafUnfold(c, |s.words|, w, entry);
    match c {
      case Word(i) =>
        DoneEmit(s, i, w.brk);
      case Call(f) =>
        DoneEmitTo(s, Inst.Exec(0), Addr(s.procs[f], 0), w.brk);
      case While =>
        DoneLeaveLoop(s, If(0), w.brk);
      case Break =>
        DoneLeaveLoop(s, Jmp(0), w.brk);
      case Continue =>
        DoneContinue(s, w);
      case Exit =>
        DoneExit(s, w);
    }
  }

  lemma {:induction false} TryPopsKeep(s: CState, n: nat)
    ensures EmitTryPops(s, n).trys == s.trys && EmitTryPops(s, n).control == s.control
    decreases n
  {
    if n > 0 {
      TryPopsKeep(Emit(s, TryPop), n - 1);
    }
  }

  lemma {:induction false} ThenUnfold(t: S.Cmd, base: nat, w: L.Place, entry: seq<nat>)
    ensures Toks(S.IfThen(t)) == [TIf] + Toks(t) + [TThen]
    ensures L.Lay(S.IfThen(t), base, w, entry)
         == [If(base + 1 + L.Size(t, w.inLoop, w.inProc))] + L.Lay(t, base + 1, w, entry)
    ensures Nest(S.IfThen(t), w.inLoop, w.inProc) == [w.inProc] + Nest(t, w.inLoop, w.inProc)
    ensures Exits(S.IfThen(t), base, w.inLoop, w.inProc) == Exits(t, base + 1, w.inLoop, w.inProc)
  {
    hide L.Size;
  }

  lemma {:induction false} ElseUnfold(t: S.Cmd, e: S.Cmd, base: nat, w: L.Place, entry: seq<nat>)
    ensures Toks(S.IfElse(t, e)) == [TIf] + Toks(t) + [TElse] + Toks(e) + [TThen]
    ensures L.Lay(S.IfElse(t, e), base, w, entry)
         == L.IfElseCode(base, L.Lay(t, base + 1, w, entry), L.Lay(e, base + 2 + L.Size(t, w.inLoop, w.inProc), w, entry))
    ensures Nest(S.IfElse(t, e), w.inLoop, w.inProc)
         == [w.inProc] + Nest(t, w.inLoop, w.inProc) + [w.inProc] + Nest(e, w.inLoop, w.inProc)
    ensures Exits(S.IfElse(t, e), base, w.inLoop, w.inProc)
         == Exits(e, base + 2 + L.Size(t, w.inLoop, w.inProc), w.inLoop, w.inProc)
            + Exits(t, base + 1, w.inLoop, w.inProc)
  {
    hide L.Size, L.IfElseCode;
  }

  lemma {:induction false} CompileIfThen(s: CState, t: S.Cmd, w: L.Place, entry: seq<nat>, inLoop: bool, self: nat)
    returns (s': CState)
    requires Fits(s, w, entry, inLoop, self)
    requires S.Nested(t, inLoop, self)
    ensures Compile(s, Toks(S.IfThen(t))) == Some(s')
    ensures Done(s, s', L.Lay(S.IfThen(t), |s.words|, w, entry), Nest(S.IfThen(t), w.inLoop, w.inProc),
                 Exits(S.IfThen(t), |s.words|, w.inLoop, w.inProc), w.brk)
    ensures Fits(s', w, entry, inLoop, self)
    decreases S.IfThen(t), 0
  {
    hide FilledAt, Done, Toks, L.Lay, Nest, Exits, L.Size, Compile, Process, Fits, S.Nested, AddExits, Patch, Lookup,
        WithAddr;
    ThenUnfold(t, |s.words|, w, entry);
    var s1 := OpenedBy(s, If(0), CIf);
    OpenWords(s);
    Opened(s, s1, CIf, w, entry, inLoop, self);
    var s2 := CompileCmd(s1, t, w, entry, inLoop, self);
    var T, nt, et := L.Lay(t, |s1.words|, w, entry), Nest(t, w.inLoop, w.inProc), Exits(t, |s1.words|, w.inLoop, w.inProc);
    DoneLength(s1, s2, T, nt, et, w.brk);
    OpenControl(Entry(CIf, |s.words|, []), s.control, s1, s2, T, nt, et, w.brk);
    s' := Joined(s2, |s.words|);
    DoneOpenClose(s, If(0), CIf, s1, s2, s', Addr(|s2.words|, 0), T, nt, et, w.brk);
    ThenJoins(s2);
    CompileThree(s, TIf, Toks(t), TThen, s1, s2, s');
    FitsMore(s, s', w, entry, inLoop, self, [If(|s2.words|)] + T, [w.inProc] + nt, et, w.brk);
  }

  /** After IF (or the JMP of ELSE): an instruction emitted, and remembered on the control stack. */
  function OpenedBy(s: CState, i: Inst, typ: Control): CState {
    Emit(s, i).(control := [Entry(typ, |s.words|, [])] + s.control)
  }

  lemma OpenWords(s: CState)
    ensures Process(s, TIf) == Some(OpenedBy(s, If(0), CIf))
  {}

  /** A control entry that is neither a loop nor a TRY leaves the place as it was. */
  lemma Opened(s: CState, s1: CState, typ: Control, w: L.Place, entry: seq<nat>, inLoop: bool, self: nat)
    requires Fits(s, w, entry, inLoop, self)
    requires typ != CBegin && typ != CTry
    requires s1.control == [Entry(typ, |s.words|, [])] + s.control && s1.trys == s.trys && s1.procs == s.procs
    ensures Fits(s1, w, entry, inLoop, self)
  {
    assert s1.control[1..] == s.control;
  }

  /** After THEN or ENDCATCH: the jump at place leads to the instruction emitted next. */
  function Joined(s: CState, place: nat): CState
    requires s.control != []
  {
    var a := Addr(|s.words|, 0);
    Prealloc(s).(control := s.control[1..], words := Patch(s.words, place, Lookup(s.addrs, a)),
                 addrs := WithAddr(s.addrs, a))
  }

  lemma ThenJoins(s: CState)
    requires s.control != []
    ensures s.control[0].typ == CIf || s.control[0].typ == CElse ==>
              Process(s, TThen) == Some(Joined(s, s.control[0].place))
    ensures s.control[0].typ == CCatch ==> Process(s, TEndCatch) == Some(Joined(s, s.control[0].place))
  {}

  lemma DoneFacts(s: CState, s': CState, code: Code, nest: seq<nat>, exits: seq<nat>, brk: nat)
    requires Done(s, s', code, nest, exits, brk)
    ensures s'.control == AddExits(s.control, exits)
    ensures s'.trys == s.trys && s'.inProc == s.inProc && s'.procs == s.procs
  {}

  lemma CompileThree(s: CState, t1: Token, ts: seq<Token>, t2: Token, s1: CState, s2: CState, s3: CState)
    requires Process(s, t1) == Some(s1) && Compile(s1, ts) == Some(s2) && Process(s2, t2) == Some(s3)
    ensures Compile(s, [t1] + ts + [t2]) == Some(s3)
  {
    hide Process;
    CompileOne(s, t1);
    CompileOne(s2, t2);
    CompileAppend(s, [t1], ts);
    CompileAppend(s, [t1] + ts, [t2]);
  }

  /** Between THEN's and ELSE's part: the IF patched to lead past the coming JMP. */
  function ElseReady(s: CState, place: nat): CState
    requires s.control != []
  {
    var a := Addr(|s.words|, 1);
    s.(control := s.control[1..], words := Patch(s.words, place, Lookup(s.addrs, a)), addrs := WithAddr(s.addrs, a))
  }

  lemma ElseOpens(s: CState)
    requires Innermost(s, CIf) && s.control[0].place < |s.words|
    ensures Process(s, TElse) == Some(OpenedBy(ElseReady(s, s.control[0].place), Jmp(0), CElse))
  {
    var place := s.control[0].place;
    var k := Lookup(s.addrs, Addr(|s.words|, 1));
    var r := OpenedBy(ElseReady(s, place), Jmp(0), CElse);
    assert Process(s, TElse).value.words == r.words;
  }

  lemma CompileFive(s: CState, t1: Token, ts: seq<Token>, t2: Token, ts': seq<Token>, t3: Token,
                    s1: CState, s2: CState, s3: CState, s4: CState, s5: CState)
    requires Process(s, t1) == Some(s1) && Compile(s1, ts) == Some(s2) && Process(s2, t2) == Some(s3)
    requires Compile(s3, ts') == Some(s4) && Process(s4, t3) == Some(s5)
    ensures Compile(s, [t1] + ts + [t2] + ts' + [t3]) == Some(s5)
  {
    hide Process;
    CompileThree(s, t1, ts, t2, s1, s2, s3);
    CompileAppend(s, [t1] + ts + [t2], ts');
    CompileOne(s4, t3);
    CompileAppend(s, [t1] + ts + [t2] + ts', [t3]);
  }

  lemma {:induction false} CompileIfElse(s: CState, t: S.Cmd, e: S.Cmd, w: L.Place, entry: seq<nat>, inLoop: bool,
      self: nat)
    returns (s': CState)
    requires Fits(s, w, entry, inLoop, self)
    requires S.Nested(t, inLoop, self) && S.Nested(e, inLoop, self)
    ensures Compile(s, Toks(S.IfElse(t, e))) == Some(s')
    ensures Done(s, s', L.Lay(S.IfElse(t, e), |s.words|, w, entry), Nest(S.IfElse(t, e), w.inLoop, w.inProc),
                 Exits(S.IfElse(t, e), |s.words|, w.inLoop, w.inProc), w.brk)
    ensures Fits(s', w, entry, inLoop, self)
    decreases S.IfElse(t, e), 0
  {
    hide FilledAt, Done, Toks, L.Lay, Nest, Exits, L.Size, Compile, Process, Fits, S.Nested, AddExits, Patch, Lookup,
        WithAddr, L.IfElseCode;
    ElseUnfold(t, e, |s.words|, w, entry);
    var s1 := OpenedBy(s, If(0), CIf);
    OpenWords(s);
    Opened(s, s1, CIf, w, entry, inLoop, self);
    var s2 := CompileCmd(s1, t, w, entry, inLoop, self);
    var T, nt, et := L.Lay(t, |s1.words|, w, entry), Nest(t, w.inLoop, w.inProc), Exits(t, |s1.words|, w.inLoop, w.inProc);
    DoneLength(s1, s2, T, nt, et, w.brk);
    OpenControl(Entry(CIf, |s.words|, []), s.control, s1, s2, T, nt, et, w.brk);
    var sA := ElseReady(s2, |s.words|);
    DoneOpenClose(s, If(0), CIf, s1, s2, sA, Addr(|s2.words|, 1), T, nt, et, w.brk);
    var els := |s2.words| + 1;
    FitsMore(s, sA, w, entry, inLoop, self, [If(els)] + T, [w.inProc] + nt, et, w.brk);
    ElseOpens(s2);
    DoneLength(s, sA, [If(els)] + T, [s.trys] + nt, et, w.brk);
    var s3 := OpenedBy(sA, Jmp(0), CElse);
    Opened(sA, s3, CElse, w, entry, inLoop, self);
    var s4 := CompileCmd(s3, e, w, entry, inLoop, self);
    var E, ne, ee := L.Lay(e, |s3.words|, w, entry), Nest(e, w.inLoop, w.inProc), Exits(e, |s3.words|, w.inLoop, w.inProc);
    DoneLength(s3, s4, E, ne, ee, w.brk);
    s' := ElseJoined(sA, s4, E, ne, ee, w.brk);
    CompileFive(s, TIf, Toks(t), TElse, Toks(e), TThen, s1, s2, s3, s4, s');
    var end := |s4.words|;
    DoneSeq(s, sA, s', [If(els)] + T, [Jmp(end)] + E, [s.trys] + nt, [sA.trys] + ne, et, ee, w.brk);
    IfElseShape(s, s', T, E, nt, ne, ee + et, w, entry, inLoop, self);
  }

  lemma ElseJoined(sA: CState, s4: CState, E: Code, ne: seq<nat>, ee: seq<nat>, brk: nat) returns (s': CState)
    requires Done(OpenedBy(sA, Jmp(0), CElse), s4, E, ne, ee, brk)
    ensures Process(s4, TThen) == Some(s')
    ensures Done(sA, s', [Jmp(|s4.words|)] + E, [sA.trys] + ne, ee, brk)
  {
    hide FilledAt, Done, Process, AddExits, Patch, Lookup, WithAddr;
    var s3 := OpenedBy(sA, Jmp(0), CElse);
    OpenControl(Entry(CElse, |sA.words|, []), sA.control, s3, s4, E, ne, ee, brk);
    s' := Joined(s4, |sA.words|);
    DoneOpenClose(sA, Jmp(0), CElse, s3, s4, s', Addr(|s4.words|, 0), E, ne, ee, brk);
    ThenJoins(s4);
  }

  lemma IfElseShape(s: CState, s': CState, T: Code, E: Code, nt: seq<nat>, ne: seq<nat>, exits: seq<nat>,
                    w: L.Place, entry: seq<nat>, inLoop: bool, self: nat)
    requires Fits(s, w, entry, inLoop, self)
    requires
      var els := |s.words| + 2 + |T|;
      Done(s, s', ([If(els)] + T) + ([Jmp(els + |E|)] + E), ([w.inProc] + nt) + ([w.inProc] + ne), exits, w.brk)
    ensures Done(s, s', L.IfElseCode(|s.words|, T, E), [w.inProc] + nt + [w.inProc] + ne, exits, w.brk)
    ensures Fits(s', w, entry, inLoop, self)
  {
    hide Done, Fits;
    var els := |s.words| + 2 + |T|;
    assert ([If(els)] + T) + ([Jmp(els + |E|)] + E) == L.IfElseCode(|s.words|, T, E);
    assert ([w.inProc] + nt) + ([w.inProc] + ne) == [w.inProc] + nt + [w.inProc] + ne;
    FitsMore(s, s', w, entry, inLoop, self, L.IfElseCode(|s.words|, T, E), [w.inProc] + nt + [w.inProc] + ne, exits, w.brk);
  }

  // ----- loops -----

  lemma {:induction false} LoopUnfold(b: S.Cmd, base: nat, w: L.Place, entry: seq<nat>)
    ensures
      var w' := InnerPlace(b, base, w);
      var B, nb := L.Lay(b, base, w', entry), Nest(b, 0, w.inProc);
      && L.Lay(S.LoopUntil(b), base, w, entry) == B + [If(base)]
      && L.Lay(S.LoopRepeat(b), base, w, entry) == B + [Jmp(base)]
      && Nest(S.LoopUntil(b), w.inLoop, w.inProc) == nb + [w.inProc]
      && Nest(S.LoopRepeat(b), w.inLoop, w.inProc) == nb + [w.inProc]
    ensures Toks(S.LoopUntil(b)) == [TBegin] + Toks(b) + [TUntil]
    ensures Toks(S.LoopRepeat(b)) == [TBegin] + Toks(b) + [TRepeat]
    ensures Exits(S.LoopUntil(b), base, w.inLoop, w.inProc) == []
    ensures Exits(S.LoopRepeat(b), base, w.inLoop, w.inProc) == []
  {}

  function InnerPlace(b: S.Cmd, base: nat, w: L.Place): L.Place {
    L.Place(base + L.Size(b, 0, w.inProc) + 1, base, 0, w.inProc)
  }

  lemma BeginFits(s: CState, b: S.Cmd, w: L.Place, entry: seq<nat>, inLoop: bool, self: nat)
    requires Fits(s, w, entry, inLoop, self)
    ensures Process(s, TBegin).Some?
    ensures Process(s, TBegin).value.words == s.words
    ensures Fits(Process(s, TBegin).value, InnerPlace(b, |s.words|, w), entry, true, self)
  {}

  lemma LoopCloses(s: CState)
    requires Innermost(s, CBegin)
    ensures Process(s, TUntil) == Some(CloseLoop(s, If(0)))
    ensures Process(s, TRepeat) == Some(CloseLoop(s, Jmp(0)))
  {}

  lemma {:induction false} CompileLoop(s: CState, b: S.Cmd, i: Inst, w: L.Place, entry: seq<nat>, inLoop: bool, self: nat)
    returns (s': CState)
    requires i == If(0) || i == Jmp(0)
    requires Fits(s, w, entry, inLoop, self)
    requires S.Nested(b, true, self)
    ensures
      var c := if i == If(0) then S.LoopUntil(b) else S.LoopRepeat(b);
      && Compile(s, Toks(c)) == Some(s')
      && Done(s, s', L.Lay(c, |s.words|, w, entry), Nest(c, w.inLoop, w.inProc), [], w.brk)
      && Exits(c, |s.words|, w.inLoop, w.inProc) == []
    ensures Fits(s', w, entry, inLoop, self)
    decreases if i == If(0) then S.LoopUntil(b) else S.LoopRepeat(b), 0
  {
    hide FilledAt, Done, Toks, L.Lay, Nest, Exits, L.Size, Compile, Process, Fits, S.Nested, AddExits, Patch, Lookup,
        WithAddr, CloseLoop;
    LoopUnfold(b, |s.words|, w, entry);
    BeginFits(s, b, w, entry, inLoop, self);
    var s1 := Process(s, TBegin).value;
    var w' := InnerPlace(b, |s.words|, w);
    var s2 := CompileCmd(s1, b, w', entry, true, self);
    var B, nb, eb := L.Lay(b, |s.words|, w', entry), Nest(b, 0, w.inProc), Exits(b, |s.words|, 0, w.inProc);
    LoopControl(s, s2, B, nb, eb, w'.brk);
    DoneLoop(s, i, s2, B, nb, eb, w.brk);
    LoopCloses(s2);
    s' := CloseLoop(s2, i);
    CompileThree(s, TBegin, Toks(b), if i == If(0) then TUntil else TRepeat, s1, s2, s');
    FitsTrys(s, w, entry, inLoop, self);
    FitsMore(s, s', w, entry, inLoop, self, B + [SetTarget(i, |s.words|)], nb + [s.trys], [], w.brk);
  }

  lemma FitsTrys(s: CState, w: L.Place, entry: seq<nat>, inLoop: bool, self: nat)
    requires Fits(s, w, entry, inLoop, self)
    ensures s.trys == w.inProc
  {}

  // ----- TRY -----

  lemma TryLayout(b: S.Cmd, h: S.Cmd, base: nat, w: L.Place, entry: seq<nat>)
    ensures L.Lay(S.TryCatch(b, h), base, w, entry)
         == L.TryCode(base, L.Lay(b, base + 1, L.Inside(w), entry),
                      L.Lay(h, base + 4 + L.Size(b, w.inLoop + 1, w.inProc + 1), w, entry))
  {
    hide L.TryCode, L.Size;
  }

  lemma TryUnfold(b: S.Cmd, h: S.Cmd, base: nat, w: L.Place, entry: seq<nat>)
    ensures Toks(S.TryCatch(b, h)) == [TTry] + Toks(b) + [TCatch] + Toks(h) + [TEndCatch]
    ensures Nest(S.TryCatch(b, h), w.inLoop, w.inProc)
         == TryNest(w.inProc, Nest(b, w.inLoop + 1, w.inProc + 1), Nest(h, w.inLoop, w.inProc))
    ensures Exits(S.TryCatch(b, h), base, w.inLoop, w.inProc)
         == Exits(h, base + 4 + L.Size(b, w.inLoop + 1, w.inProc + 1), w.inLoop, w.inProc)
            + Exits(b, base + 1, w.inLoop + 1, w.inProc + 1)
  {
    hide TryNest, L.Size, L.Lay;
  }

  lemma TryOpens(s: CState, w: L.Place, entry: seq<nat>, inLoop: bool, self: nat)
    requires Fits(s, w, entry, inLoop, self)
    ensures
      var s1 := OpenedBy(s, Inst.Try(0), CTry).(trys := s.trys + 1);
      Process(s, TTry) == Some(s1) && Fits(s1, L.Inside(w), entry, inLoop, self)
  {
    var s1 := OpenedBy(s, Inst.Try(0), CTry).(trys := s.trys + 1);
    assert s1.control[1..] == s.control;
  }

  /** After the body: the TRY patched to lead to the coming CATCH, and one TRY fewer. */
  function TryReady(s: CState, place: nat): CState
    requires s.control != [] && s.trys > 0
  {
    var a := Addr(|s.words| + 2, 0);
    s.(control := s.control[1..], words := Patch(s.words, place, Lookup(s.addrs, a)),
       addrs := WithAddr(s.addrs, a), trys := s.trys - 1)
  }

  function AndWord(s: CState, i: Inst): CState {
    s.(words := s.words + [OnePass.Word(i, true)])
  }

  /** CATCH emits TRYPOP, JMP and CATCH, all still marked as inside the TRY. */
  lemma CatchOpens(s: CState)
    requires Innermost(s, CTry) && s.trys > 0 && s.control[0].place < |s.words|
    ensures
      var sB := AndWord(TryReady(s, s.control[0].place), TryPop);
      var sC := AndWord(sB, Jmp(0)).(control := [Entry(CCatch, |sB.words|, [])] + sB.control);
      Process(s, TCatch) == Some(AndWord(sC, Catch).(next := None))
  {
    var place := s.control[0].place;
    var sB := AndWord(TryReady(s, place), TryPop);
    var sC := AndWord(sB, Jmp(0)).(control := [Entry(CCatch, |sB.words|, [])] + sB.control);
    var r := AndWord(sC, Catch).(next := None);
    assert Process(s, TCatch).value.words == r.words;
  }

  lemma DoneAndWord(s: CState, s': CState, i: Inst, nest: nat, brk: nat)
    requires !HasTarget(i) && s' == AndWord(s, i).(next := s'.next)
    ensures Done(s, s', [i], [nest], [], brk)
  {
    AddExitsNothing(s.control);
  }

  lemma {:induction false} CompileTry(s: CState, b: S.Cmd, h: S.Cmd, w: L.Place, entry: seq<nat>, inLoop: bool, self: nat)
    returns (s': CState)
    requires Fits(s, w, entry, inLoop, self)
    requires S.Nested(b, inLoop, self) && S.Nested(h, inLoop, self)
    ensures Compile(s, Toks(S.TryCatch(b, h))) == Some(s')
    ensures Done(s, s', L.Lay(S.TryCatch(b, h), |s.words|, w, entry), Nest(S.TryCatch(b, h), w.inLoop, w.inProc),
                 Exits(S.TryCatch(b, h), |s.words|, w.inLoop, w.inProc), w.brk)
    ensures Fits(s', w, entry, inLoop, self)
    decreases S.TryCatch(b, h), 0
  {
    hide FilledAt, Done, Toks, L.Lay, Nest, Exits, L.Size, Compile, Process, Fits, S.Nested, AddExits, Patch, Lookup,
        WithAddr, L.TryCode, TryNest;
    TryUnfold(b, h, |s.words|, w, entry);
    TryLayout(b, h, |s.words|, w, entry);
    FitsTrys(s, w, entry, inLoop, self);
    TryOpens(s, w, entry, inLoop, self);
    var s1 := OpenedBy(s, Inst.Try(0), CTry).(trys := s.trys + 1);
    var s2 := CompileCmd(s1, b, L.Inside(w), entry, inLoop, self);
    var B, nb, eb := L.Lay(b, |s1.words|, L.Inside(w), entry), Nest(b, w.inLoop + 1, w.inProc + 1), Exits(b, |s1.words|,
        w.inLoop + 1, w.inProc + 1);
    DoneLength(s1, s2, B, nb, eb, w.brk);
    OpenControl(Entry(CTry, |s.words|, []), s.control, s1, s2, B, nb, eb, w.brk);
    var sA := TryReady(s2, |s.words|);
    var catch_ := |s2.words| + 2;
    DoneOpenClose(s, Inst.Try(0), CTry, s1, s2, sA, Addr(catch_, 0), B, nb, eb, w.brk);
    FitsMore(s, sA, w, entry, inLoop, self, [Inst.Try(catch_)] + B, [s.trys] + nb, eb, w.brk);
    CatchOpens(s2);
    DoneLength(s, sA, [Inst.Try(catch_)] + B, [s.trys] + nb, eb, w.brk);
    var sB := AndWord(sA, TryPop);
    var sC := AndWord(sB, Jmp(0)).(control := [Entry(CCatch, |sB.words|, [])] + sB.control);
    var s3 := AndWord(sC, Catch).(next := None);
    OpenedAt(sA, s3, |sB.words|, w, entry, inLoop, self);
    var s4 := CompileCmd(s3, h, w, entry, inLoop, self);
    var H, nh, eh := L.Lay(h, |s3.words|, w, entry), Nest(h, w.inLoop, w.inProc), Exits(h, |s3.words|, w.inLoop, w.inProc);
    s' := HandlerDone(sA, s4, H, nh, eh, w);
    CompileFive(s, TTry, Toks(b), TCatch, Toks(h), TEndCatch, s1, s2, s3, s4, s');
    DoneSeq(s, sA, s', [Inst.Try(catch_)] + B, [TryPop] + ([Jmp(catch_ + 1 + |H|)] + ([Catch] + H)), [w.inProc] + nb,
            [w.inProc + 1] + ([w.inProc] + ([w.inProc + 1] + nh)), eb, eh, w.brk);
    TryShape(s, s', B, H, nb, nh, eh + eb, w, entry, inLoop, self);
  }

  /** From the end of the body of a TRY to ENDCATCH. */
  lemma HandlerDone(sA: CState, s4: CState, H: Code, nh: seq<nat>, eh: seq<nat>, w: L.Place) returns (s': CState)
    requires sA.trys == w.inProc
    requires
      var sB := AndWord(sA, TryPop);
      var sC := AndWord(sB, Jmp(0)).(control := [Entry(CCatch, |sB.words|, [])] + sB.control);
      Done(AndWord(sC, Catch).(next := None), s4, H, nh, eh, w.brk)
    ensures Process(s4, TEndCatch) == Some(s')
    ensures Done(sA, s', [TryPop] + ([Jmp(|sA.words| + 3 + |H|)] + ([Catch] + H)),
                 [w.inProc + 1] + ([w.inProc] + ([w.inProc + 1] + nh)), eh, w.brk)
  {
    hide FilledAt, Done, Process, AddExits, Patch, Lookup, WithAddr;
    var sB := AndWord(sA, TryPop);
    var sC := AndWord(sB, Jmp(0)).(control := [Entry(CCatch, |sB.words|, [])] + sB.control);
    DoneAndWord(sA, sB, TryPop, w.inProc + 1, w.brk);
    CatchThen(sC, s4, H, w.inProc + 1, nh, eh, w.brk);
    s' := JmpJoined(sB, sC, s4, [Catch] + H, [w.inProc + 1] + nh, eh, w);
    assert |s4.words| == |sA.words| + 3 + |H|;
    hide AndWord;
    DoneSeq(sA, sB, s', [TryPop], [Jmp(|s4.words|)] + ([Catch] + H), [w.inProc + 1], [w.inProc] + ([w.inProc + 1] + nh),
            [], eh, w.brk);
    assert eh + [] == eh;
  }

  lemma CatchThen(sC: CState, s4: CState, H: Code, d: nat, nh: seq<nat>, eh: seq<nat>, brk: nat)
    requires Done(AndWord(sC, Catch).(next := None), s4, H, nh, eh, brk)
    ensures Done(sC, s4, [Catch] + H, [d] + nh, eh, brk)
    ensures |s4.words| == |sC.words| + 1 + |H|
  {
    hide FilledAt, Done;
    var s3 := AndWord(sC, Catch).(next := None);
    DoneAndWord(sC, s3, Catch, d, brk);
    DoneLength(s3, s4, H, nh, eh, brk);
    DoneSeq(sC, s3, s4, [Catch], H, [d], nh, [], eh, brk);
    assert eh + [] == eh;
  }

  /** ENDCATCH makes the JMP before the handler lead past it. */
  lemma JmpJoined(sB: CState, sC: CState, s4: CState, code: Code, nest: seq<nat>, exits: seq<nat>, w: L.Place)
      returns (s': CState)
    requires sB.trys == w.inProc
    requires sC == AndWord(sB, Jmp(0)).(control := [Entry(CCatch, |sB.words|, [])] + sB.control)
    requires Done(sC, s4, code, nest, exits, w.brk)
    ensures Process(s4, TEndCatch) == Some(s')
    ensures Done(sB, s', [Jmp(|s4.words|)] + code, [w.inProc] + nest, exits, w.brk)
  {
    hide FilledAt, Done, Process, AddExits, Patch, Lookup, WithAddr;
    OpenControl(Entry(CCatch, |sB.words|, []), sB.control, sC, s4, code, nest, exits, w.brk);
    s' := Joined(s4, |sB.words|);
    assert sC.words[..|sB.words|] == sB.words;
    DoneOpenClose(sB, Jmp(0), CCatch, sC, s4, s', Addr(|s4.words|, 0), code, nest, exits, w.brk);
    ThenJoins(s4);
  }

  lemma OpenedAt(s: CState, s1: CState, place: nat, w: L.Place, entry: seq<nat>, inLoop: bool, self: nat)
    requires Fits(s, w, entry, inLoop, self)
    requires s1.control == [Entry(CCatch, place, [])] + s.control && s1.trys == s.trys && s1.procs == s.procs
    ensures Fits(s1, w, entry, inLoop, self)
  {
    assert s1.control[1..] == s.control;
  }

  lemma TryShape(s: CState, s': CState, B: Code, H: Code, nb: seq<nat>, nh: seq<nat>, exits: seq<nat>,
                 w: L.Place, entry: seq<nat>, inLoop: bool, self: nat)
    requires Fits(s, w, entry, inLoop, self)
    requires
      var catch_ := |s.words| + 3 + |B|;
      Done(s, s', ([Inst.Try(catch_)] + B) + ([TryPop] + ([Jmp(catch_ + 1 + |H|)] + ([Catch] + H))),
           ([w.inProc] + nb) + ([w.inProc + 1] + ([w.inProc] + ([w.inProc + 1] + nh))), exits, w.brk)
    ensures Done(s, s', L.TryCode(|s.words|, B, H), TryNest(w.inProc, nb, nh), exits, w.brk)
    ensures Fits(s', w, entry, inLoop, self)
  {
    hide Done, Fits;
    var catch_ := |s.words| + 3 + |B|;
    assert ([Inst.Try(catch_)] + B) + ([TryPop] + ([Jmp(catch_ + 1 + |H|)] + ([Catch] + H))) == L.TryCode(|s.words|, B, H);
    assert ([w.inProc] + nb) + ([w.inProc + 1] + ([w.inProc] + ([w.inProc + 1] + nh))) == TryNest(w.inProc, nb, nh);
    FitsMore(s, s', w, entry, inLoop, self, L.TryCode(|s.words|, B, H), TryNest(w.inProc, nb, nh), exits, w.brk);
  }

  // ----- whole programs -----

  /** Outside every loop there is nothing left to patch. */
  lemma {:induction false} NoExits(c: S.Cmd, base: nat, inLoop: nat, inProc: nat, self: nat)
    requires S.Nested(c, false, self)
    ensures Exits(c, base, inLoop, inProc) == []
    decreases c
  {
    match c
    case Seq(a, b) =>
      NoExits(a, base, inLoop, inProc, self);
      NoExits(b, base + L.Size(a, inLoop, inProc), inLoop, inProc, self);
    case IfThen(t) =>
      NoExits(t, base + 1, inLoop, inProc, self);
    case IfElse(t, e) =>
      NoExits(t, base + 1, inLoop, inProc, self);
      NoExits(e, base + 2 + L.Size(t, inLoop, inProc), inLoop, inProc, self);
    case TryCatch(b, h) =>
      NoExits(b, base + 1, inLoop + 1, inProc + 1, self);
      NoExits(h, base + 4 + L.Size(b, inLoop + 1, inProc + 1), inLoop, inProc, self);
    case _ =>
  }

  function ProcNest(pr: S.Proc): (r: seq<nat>)
    ensures |r| == L.Size(pr.body, 0, 0) + 2
  {
    [0] + Nest(pr.body, 0, 0) + [0]
  }

  /** The nesting before each instruction of a whole program. */
  function AllNest(p: S.Prog): seq<nat> {
    if |p| == 0 then [] else AllNest(p[..|p| - 1]) + ProcNest(p[|p| - 1])
  }

  /** The code and the TRY flags of a procedure stand at number at, with nothing pending. */
  ghost predicate ProcStands(s: CState, pr: S.Proc, at: nat, entry: seq<nat>) {
    var code, nest := L.LayProc(pr, at, entry), ProcNest(pr);
    && at + |code| <= |s.words|
    && forall j :: at <= j < at + |code| ==> FilledAt(s.words[j], s.addrs, false, 0, code[j - at], nest[j - at])
  }

  ghost predicate Between(s: CState) {
    s.control == [] && !s.inProc && s.trys == 0
  }

  lemma {:induction false} CompileProc(s: CState, pr: S.Proc, entry: seq<nat>) returns (s': CState)
    requires Between(s) && S.Nested(pr.body, false, |s.procs|)
    requires s.procs + [|s.words|] <= entry
    ensures Compile(s, ProcToks(pr)) == Some(s') && Between(s')
    ensures s'.procs == s.procs + [|s.words|]
    ensures |s.words| <= |s'.words| && s'.words[..|s.words|] == s.words && s.addrs <= s'.addrs
    ensures ProcStands(s', pr, |s.words|, entry)
    ensures |s'.words| == |s.words| + |L.LayProc(pr, |s.words|, entry)|
  {
    hide FilledAt, Toks, L.Lay, Nest, Exits, L.Size, Compile, S.Nested;
    var w := L.Place(0, 0, 0, 0);
    var at := |s.words|;
    var s1 := Process(s, TColon(pr.args, pr.vars)).value;
    var s2 := CompileCmd(s1, pr.body, w, entry, false, |s.procs|);
    NoExits(pr.body, at + 1, 0, 0, |s.procs|);
    var B, nb := L.Lay(pr.body, at + 1, w, entry), Nest(pr.body, 0, 0);
    DoneColon(s, s1, pr.args, pr.vars);
    DoneFacts(s1, s2, B, nb, [], 0);
    assert s2.control == [] && s2.inProc;
    s' := Process(s2, TSemi).value;
    DoneEmit(s2, Ret, 0);
    var s0 := s.(inProc := true, procs := s1.procs);
    var head := Function(pr.args, pr.vars);
    DoneSeq(s0, s1, s2, [head], B, [0], nb, [], [], 0);
    var s3 := Emit(s2, Ret);
    var none: seq<nat> := [];
    assert none + none == none;
    DoneSeq(s0, s2, s3, [head] + B, [Ret], [0] + nb, [0], [], [], 0);
    CompileThree(s, TColon(pr.args, pr.vars), Toks(pr.body), TSemi, s1, s2, s');
  }

  lemma DoneColon(s: CState, s1: CState, args: nat, vars: nat)
    requires Between(s) && Process(s, TColon(args, vars)) == Some(s1)
    ensures Done(s.(inProc := true, procs := s1.procs), s1, [Function(args, vars)], [0], [], 0)
  {}

  lemma {:induction false} CompileProg(p: S.Prog, entry: seq<nat>) returns (s: CState)
    requires S.NestedProg(p)
    ensures Compile(Initial, ProgToks(p)) == Some(s) && Between(s) && |s.procs| == |p|
    ensures |s.words| == |AllNest(p)|
    ensures forall f :: 0 <= f < |p| ==> s.procs[f] == |AllNest(p[..f])|
    ensures s.procs <= entry ==> forall f :: 0 <= f < |p| ==> ProcStands(s, p[f], s.procs[f], entry)
    decreases |p|
  {
    hide FilledAt, Toks, L.Lay, Nest, Compile, S.Nested, ProcToks, L.LayProc, ProcStands;
    if p == [] {
      s := Initial;
      assert Compile(Initial, []) == Some(Initial) by { NoTokens(Initial); }
    } else {
      var n := |p| - 1;
      var s0 := CompileProg(p[..n], entry);
      s := CompileProc(s0, p[n], s0.procs + [|s0.words|]);
      CompileAppend(Initial, ProgToks(p[..n]), ProcToks(p[n]));
      forall f | 0 <= f < |p| ensures s.procs[f] == |AllNest(p[..f])| {
        if f < n {
          assert p[..n][..f] == p[..f] && s.procs[f] == s0.procs[f];
        }
      }
      if s.procs <= entry {
        var again := CompileProc(s0, p[n], entry);
        AllStand(p, s0, s, entry);
      }
    }
  }

  /** One more procedure compiled: the earlier ones stand where they stood. */
  lemma AllStand(p: S.Prog, s0: CState, s: CState, entry: seq<nat>)
    requires p != [] && |s0.procs| == |p| - 1 && |s.procs| == |p| && s0.procs <= s.procs <= entry
    requires |s0.words| <= |s.words| && s.words[..|s0.words|] == s0.words && s0.addrs <= s.addrs
    requires s0.procs <= entry ==>
      forall f :: 0 <= f < |p| - 1 ==> ProcStands(s0, p[..|p| - 1][f], s0.procs[f], entry)
    requires ProcStands(s, p[|p| - 1], s.procs[|p| - 1], entry)
    ensures forall f :: 0 <= f < |p| ==> ProcStands(s, p[f], s.procs[f], entry)
  {
    hide ProcStands;
    forall f | 0 <= f < |p| ensures ProcStands(s, p[f], s.procs[f], entry) {
      if f < |p| - 1 {
        assert p[..|p| - 1][f] == p[f] && s.procs[f] == s0.procs[f];
        ProcStays(s0, s, p[f], s.procs[f], entry);
      }
    }
  }

  lemma NoTokens(s: CState)
    ensures Compile(s, []) == Some(s)
  {}

  lemma ProcStays(s: CState, s': CState, pr: S.Proc, at: nat, entry: seq<nat>)
    requires ProcStands(s, pr, at, entry)
    requires |s.words| <= |s'.words| && s'.words[..|s.words|] == s.words && s.addrs <= s'.addrs
    ensures ProcStands(s', pr, at, entry)
  {
    hide FilledAt, L.LayProc, ProcNest;
    var code, nest := L.LayProc(pr, at, entry), ProcNest(pr);
    forall j | at <= j < at + |code|
      ensures FilledAt(s'.words[j], s'.addrs, false, 0, code[j - at], nest[j - at])
    {
      assert s'.words[j] == s'.words[..|s.words|][j];
      FilledMore(s.words[j], s.addrs, s'.addrs, false, 0, code[j - at], nest[j - at]);
    }
  }

  /** The one-pass compiler accepts every well nested program, and its code with the addresses
      resolved holds the layout of every procedure at the address the compiler recorded for it. */
  lemma NestedIsLayout(p: S.Prog) returns (s: CState)
    requires S.NestedProg(p)
    ensures Compile(Initial, ProgToks(p)) == Some(s) && Between(s)
    ensures L.Loaded(FixAddresses(s), s.procs, p) && |s.procs| == |p|
    ensures |s.words| == |AllNest(p)|
    ensures forall f :: 0 <= f < |p| ==> s.procs[f] == |AllNest(p[..f])|
    ensures forall f :: 0 <= f < |p| ==> ProcStands(s, p[f], s.procs[f], s.procs)
  {
    var first := CompileProg(p, []);
    s := CompileProg(p, first.procs);
    var code := FixAddresses(s);
    forall f | 0 <= f < |p| ensures L.Stands(code, s.procs[f], L.LayProc(p[f], s.procs[f], s.procs)) {
      StandsResolved(s, p[f], s.procs[f]);
    }
  }

  /** In particular for every well-formed program. */
  lemma OnePassIsLayout(p: S.Prog) returns (s: CState)
    requires S.WellFormedProg(p)
    ensures Compile(Initial, ProgToks(p)) == Some(s) && Between(s)
    ensures L.Loaded(FixAddresses(s), s.procs, p) && |s.procs| == |p|
    ensures |s.words| == |AllNest(p)|
    ensures forall f :: 0 <= f < |p| ==> s.procs[f] == |AllNest(p[..f])|
    ensures forall f :: 0 <= f < |p| ==> ProcStands(s, p[f], s.procs[f], s.procs)
  {
    hide S.Nested, S.WellFormed, ProcStands, L.Loaded, AllNest, FixAddresses, Compile;
    forall f | 0 <= f < |p| ensures S.Nested(p[f].body, false, f) {
      S.FormedNested(p[f].body, false, 0, f);
    }
    s := NestedIsLayout(p);
  }

  lemma StandsResolved(s: CState, pr: S.Proc, at: nat)
    requires ProcStands(s, pr, at, s.procs)
    ensures L.Stands(FixAddresses(s), at, L.LayProc(pr, at, s.procs))
  {
    hide L.LayProc, ProcNest, ResolveInst;
    var code, r := FixAddresses(s), L.LayProc(pr, at, s.procs);
    var piece := code[at..at + |r|];
    forall j | 0 <= j < |r| ensures piece[j] == r[j] {
      assert FilledAt(s.words[at + j], s.addrs, false, 0, r[at + j - at], ProcNest(pr)[at + j - at]);
    }
    assert piece == r;
  }
}
