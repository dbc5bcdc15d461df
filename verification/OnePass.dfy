/** The one-pass compiler as a function from token to state: instructions are emitted in order,
addresses are kept as (instruction, offset) pairs in a table, and jumps whose target is not known
yet are patched when the closing word arrives.

While compiling, an instruction is identified by its place in the emitted list: instructions are
emitted in the order they are allocated, and a preallocated one is the next to be emitted. */
module OnePass {
  import opened Machine
  import opened Options

  datatype Token =
    | TColon(args: nat, vars: nat) | TSemi
    | TIf | TElse | TThen
    | TBegin | TUntil | TWhile | TBreak | TContinue | TRepeat
    | TTry | TCatch | TEndCatch
    | TExit
    | TCall(f: nat)
    | TWord(i: Inst)

  datatype Control = CIf | CElse | CBegin | CTry | CCatch

  /** An entry of the control stack; a loop also lists the exits that wait for its end. */
  datatype Entry = Entry(typ: Control, place: nat, exits: seq<nat>)

  datatype Addr = Addr(node: nat, off: nat)

  /** An emitted instruction, and whether it was compiled inside a TRY. */
  datatype Word = Word(inst: Inst, inTry: bool)

  /** The compiler's state. The innermost control structure is first. next is the flag of the
      preallocated instruction, when there is one. procs lists the procedures' headers. */
  datatype CState = CState(
    words: seq<Word>,
    next: Option<bool>,
    control: seq<Entry>,
    addrs: seq<Addr>,
    trys: nat,
    inProc: bool,
    procs: seq<nat>)

  const Initial := CState([], None, [], [], 0, false, [])

  // ----- addresses -----

  /** The index of the first entry equal to a, or the length of the table. */
  function Lookup(addrs: seq<Addr>, a: Addr): (i: nat)
    ensures i <= |addrs|
    ensures i < |addrs| ==> addrs[i] == a
    ensures forall j :: 0 <= j < i ==> addrs[j] != a
  {
    if addrs == [] then 0
    else if addrs[0] == a then 0
    else 1 + Lookup(addrs[1..], a)
  }

  /** The table after asking for the address of a. */
  function WithAddr(addrs: seq<Addr>, a: Addr): (r: seq<Addr>)
    ensures addrs <= r && Lookup(addrs, a) < |r| && r[Lookup(addrs, a)] == a
  {
    if Lookup(addrs, a) < |addrs| then addrs else addrs + [a]
  }

  // ----- building blocks of the state change -----

  function Prealloc(s: CState): CState {
    if s.next.Some? then s else s.(next := Some(s.trys > 0))
  }

  function Emit(s: CState, i: Inst): CState {
    s.(words := s.words + [Word(i, s.trys > 0 || (s.next.Some? && s.next.value))], next := None)
  }

  function EmitTryPops(s: CState, n: nat): CState
    decreases n
  {
    if n == 0 then s else EmitTryPops(Emit(s, TryPop), n - 1)
  }

  function Patch(words: seq<Word>, place: nat, target: nat): seq<Word> {
    if place < |words| then words[place := words[place].(inst := SetTarget(words[place].inst, target))] else words
  }

  function PatchAll(words: seq<Word>, places: seq<nat>, target: nat): seq<Word>
    decreases |places|
  {
    if places == [] then words else PatchAll(Patch(words, places[0], target), places[1..], target)
  }

  /** Give the jump at place the address a. */
  function Aim(s: CState, place: nat, a: Addr): CState {
    s.(words := Patch(s.words, place, Lookup(s.addrs, a)), addrs := WithAddr(s.addrs, a))
  }

  /** Emit a jump to a known address. */
  function EmitTo(s: CState, i: Inst, a: Addr): CState {
    Emit(s.(addrs := WithAddr(s.addrs, a)), SetTarget(i, Lookup(s.addrs, a)))
  }

  predicate InLoop(control: seq<Entry>) {
    control != [] && (control[0].typ == CBegin || InLoop(control[1..]))
  }

  function CountTrys(control: seq<Entry>): nat {
    if control == [] || control[0].typ == CBegin then 0
    else (if control[0].typ == CTry then 1 else 0) + CountTrys(control[1..])
  }

  function LoopPlace(control: seq<Entry>): nat {
    if control == [] then 0
    else if control[0].typ == CBegin then control[0].place
    else LoopPlace(control[1..])
  }

  /** Add exits to the innermost loop, newest first. */
  function AddExits(control: seq<Entry>, exits: seq<nat>): seq<Entry> {
    if control == [] then []
    else if control[0].typ == CBegin then [control[0].(exits := exits + control[0].exits)] + control[1..]
    else [control[0]] + AddExits(control[1..], exits)
  }

  predicate Innermost(s: CState, t: Control) {
    s.control != [] && s.control[0].typ == t
  }

  /** The end of a loop: its exits lead to the instruction after the one emitted next. */
  function CloseLoop(s: CState, i: Inst): CState
    requires s.control != []
  {
    var a := Addr(|s.words|, 1);
    var s1 := Prealloc(s);
    var s2 := s1.(words := PatchAll(s1.words, s1.control[0].exits, Lookup(s1.addrs, a)),
                  addrs := WithAddr(s1.addrs, a), control := s1.control[1..]);
    EmitTo(s2, i, Addr(s.control[0].place, 0))
  }

  /** WHILE and BREAK: leave the TRYs inside the loop, then a jump that waits for the loop's end. */
  function LeaveLoop(s: CState, i: Inst): CState {
    var s1 := Emit(EmitTryPops(s, CountTrys(s.control)), i);
    s1.(control := AddExits(s1.control, [|s1.words| - 1]))
  }

  /** One token; None where the compiler reports an error. */
  function Process(s: CState, t: Token): Option<CState> {
    match t
    case TColon(args, vars) =>
      if s.inProc then None
      else
        var s1 := Emit(s, Function(args, vars));
        Some(s1.(inProc := true, procs := s.procs + [|s.words|]))
    case TSemi =>
      if s.control != [] || !s.inProc then None
      else Some(Emit(s, Ret).(inProc := false))
    case TIf =>
      var s1 := Emit(s, If(0));
      Some(s1.(control := [Entry(CIf, |s.words|, [])] + s.control))
    case TElse =>
      if !Innermost(s, CIf) then None
      else
        var s1 := Emit(s, Jmp(0));
        var s2 := s1.(control := [Entry(CElse, |s.words|, [])] + s.control[1..]);
        Some(Aim(s2, s.control[0].place, Addr(|s.words|, 1)))
    case TThen =>
      if !Innermost(s, CIf) && !Innermost(s, CElse) then None
      else
        var s1 := Prealloc(s).(control := s.control[1..]);
        Some(Aim(s1, s.control[0].place, Addr(|s.words|, 0)))
    case TBegin =>
      Some(Prealloc(s).(control := [Entry(CBegin, |s.words|, [])] + s.control))
    case TUntil =>
      if !Innermost(s, CBegin) then None else Some(CloseLoop(s, If(0)))
    case TRepeat =>
      if !Innermost(s, CBegin) then None else Some(CloseLoop(s, Jmp(0)))
    case TWhile =>
      if !InLoop(s.control) then None else Some(LeaveLoop(s, If(0)))
    case TBreak =>
      if !InLoop(s.control) then None else Some(LeaveLoop(s, Jmp(0)))
    case TContinue =>
      if !InLoop(s.control) then None
      else
        var s1 := EmitTryPops(s, CountTrys(s.control));
        Some(EmitTo(s1, Jmp(0), Addr(LoopPlace(s.control), 0)))
    case TTry =>
      var s1 := Emit(s, Inst.Try(0));
      Some(s1.(control := [Entry(CTry, |s.words|, [])] + s.control, trys := s.trys + 1))
    case TCatch =>
      if !Innermost(s, CTry) || s.trys == 0 then None
      else
        var s1 := Emit(Emit(Emit(s, TryPop), Jmp(0)), Catch);
        var s2 := s1.(trys := s.trys - 1, control := [Entry(CCatch, |s.words| + 1, [])] + s.control[1..]);
        Some(Aim(s2, s.control[0].place, Addr(|s.words| + 2, 0)))
    case TEndCatch =>
      if !Innermost(s, CCatch) then None
      else
        var s1 := Prealloc(s).(control := s.control[1..]);
        Some(Aim(s1, s.control[0].place, Addr(|s.words|, 0)))
    case TExit => Some(Emit(EmitTryPops(s, s.trys), Ret))
    case TCall(f) =>
      if f >= |s.procs| then None else Some(EmitTo(s, Inst.Exec(0), Addr(s.procs[f], 0)))
    case TWord(i) =>
      if Local(i) && !i.If? then Some(Emit(s, i)) else None
  }

  function Compile(s: CState, ts: seq<Token>): Option<CState>
    decreases |ts|
  {
    if ts == [] then Some(s)
    else
      var r := Process(s, ts[0]);
      if r.None? then None else Compile(r.value, ts[1..])
  }

  // ----- the finished code -----

  function Resolve(addrs: seq<Addr>, k: nat): nat {
    if k < |addrs| then addrs[k].node + addrs[k].off else 0
  }

  function ResolveInst(addrs: seq<Addr>, i: Inst): Inst {
    if HasTarget(i) then SetTarget(i, Resolve(addrs, i.target)) else i
  }

  /** fix_addresses on the freshly compiled list. */
  function FixAddresses(s: CState): Code {
    seq(|s.words|, j requires 0 <= j < |s.words| => ResolveInst(s.addrs, s.words[j].inst))
  }
}
