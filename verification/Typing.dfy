/** Compiled code nests its TRYs properly: every instruction of a laid-out program is typed by the
nesting the compiler saw when it emitted it. */
module Typing {
  import opened Machine
  import opened Source
  import opened Layout
  import opened Backpatch
  import opened Discipline
  import Correct
  import opened Options

  /** The nesting annotations of a piece stand where its code stands. */
  ghost predicate Noted(dep: seq<nat>, base: nat, nest: seq<nat>) {
    base + |nest| <= |dep| && forall j :: 0 <= j < |nest| ==> dep[base + j] == nest[j]
  }

  lemma NotedSplit(dep: seq<nat>, base: nat, a: seq<nat>, b: seq<nat>)
    requires Noted(dep, base, a + b)
    ensures Noted(dep, base, a) && Noted(dep, base + |a|, b)
  {
    assert forall j :: 0 <= j < |a| ==> (a + b)[j] == a[j];
    forall j | 0 <= j < |b| ensures dep[base + |a| + j] == b[j] {
      assert (a + b)[|a| + j] == b[j] && dep[base + (|a| + j)] == (a + b)[|a| + j];
    }
  }

  /** The place's exits are typed as the loop sees them. */
  ghost predicate PlaceOk(code: Code, dep: seq<nat>, w: Place, inLoop: bool)
    requires |dep| == |code|
  {
    w.inLoop <= w.inProc && inLoop ==>
      Lands(code, dep, w.brk, w.inProc - w.inLoop) && Lands(code, dep, w.cont, w.inProc - w.inLoop)
  }

  ghost predicate EntriesOk(code: Code, entry: seq<nat>, self: nat) {
    self < |entry| && forall f :: 0 <= f <= self ==> entry[f] < |code| && code[entry[f]].Function?
  }

  ghost predicate Piece(code: Code, dep: seq<nat>, base: nat, c: Cmd, w: Place, entry: seq<nat>) {
    && |dep| == |code|
    && Stands(code, base, Lay(c, base, w, entry))
    && Noted(dep, base, Nest(c, w.inLoop, w.inProc))
    && Lands(code, dep, base + Size(c, w.inLoop, w.inProc), w.inProc)
    && w.inLoop <= w.inProc
  }

  ghost predicate TypedFrom(code: Code, dep: seq<nat>, base: nat, n: nat)
    requires |dep| == |code|
  {
    base + n <= |code| && forall i :: base <= i < base + n ==> TypedAt(code, dep, i)
  }

  lemma {:induction false} PopsTyped(code: Code, dep: seq<nat>, base: nat, n: nat, d: nat, last: Inst)
    requires |dep| == |code| && n <= d
    requires Stands(code, base, TryPops(n) + [last]) && Noted(dep, base, Falling(d, n))
    requires last.If? || last.Jmp? || last.Ret?
    requires TypedAt(code, dep, base + n)
    ensures TypedFrom(code, dep, base, n + 1)
    ensures Lands(code, dep, base, d)
  {
    StandsSplit(code, base, TryPops(n), [last]);
    StandsAt(code, base + n, [last], 0);
    forall i | base <= i < base + n + 1 ensures TypedAt(code, dep, i) {
      if i < base + n {
        StandsAt(code, base, TryPops(n), i - base);
        PopLands(code, dep, base, n, d, last, i - base);
        PopLands(code, dep, base, n, d, last, i - base + 1);
      }
    }
    PopLands(code, dep, base, n, d, last, 0);
  }

  lemma PopLands(code: Code, dep: seq<nat>, base: nat, n: nat, d: nat, last: Inst, j: nat)
    requires |dep| == |code| && j <= n <= d
    requires Stands(code, base, TryPops(n) + [last]) && Noted(dep, base, Falling(d, n))
    requires last.If? || last.Jmp? || last.Ret?
    ensures Lands(code, dep, base + j, d - j)
  {
    StandsAt(code, base, TryPops(n) + [last], j);
    NotedAt(dep, base, Falling(d, n), j);
  }

  lemma TypedOne(code: Code, dep: seq<nat>, i: nat)
    requires |dep| == |code| && i < |code| && TypedAt(code, dep, i)
    ensures TypedFrom(code, dep, i, 1)
  {}

  lemma TypedJoin(code: Code, dep: seq<nat>, base: nat, m: nat, n: nat)
    requires |dep| == |code| && TypedFrom(code, dep, base, m) && TypedFrom(code, dep, base + m, n)
    ensures TypedFrom(code, dep, base, m + n)
  {
    hide TypedAt;
  }

  lemma {:induction false} LayTyped(code: Code, dep: seq<nat>, base: nat, c: Cmd, w: Place, entry: seq<nat>,
      inLoop: bool, self: nat)
    requires WellFormed(c, inLoop, w.inLoop, self)
    requires Piece(code, dep, base, c, w, entry) && PlaceOk(code, dep, w, inLoop) && EntriesOk(code, entry, self)
    ensures TypedFrom(code, dep, base, Size(c, w.inLoop, w.inProc))
    ensures Lands(code, dep, base, w.inProc)
    decreases c
  {
    hide TypedAt, TypedFrom, Lay, Nest, Stands, Noted, Size, WellFormed, PlaceOk, EntriesOk, Lands;
    match c
    case Skip =>
      SkipTyped(code, dep, base, w);
    case Seq(a, b) =>
      var s := Size(a, w.inLoop, w.inProc);
      SubWellFormed(c, inLoop, w.inLoop, self);
      SeqPieces(code, dep, base, a, b, w, entry);
      LayTyped(code, dep, base + s, b, w, entry, inLoop, self);
      LayTyped(code, dep, base, a, w, entry, inLoop, self);
      TypedJoin(code, dep, base, s, Size(b, w.inLoop, w.inProc));
    case IfThen(t) =>
      SubWellFormed(c, inLoop, w.inLoop, self);
      IfThenPieces(code, dep, base, t, w, entry);
      LayTyped(code, dep, base + 1, t, w, entry, inLoop, self);
      IfHeadTyped(code, dep, base, w.inProc);
      TypedOne(code, dep, base);
      TypedJoin(code, dep, base, 1, Size(t, w.inLoop, w.inProc));
    case IfElse(t, e) =>
      SubWellFormed(c, inLoop, w.inLoop, self);
      IfElsePieces(code, dep, base, t, e, w, entry);
      LayTyped(code, dep, base + 2 + Size(t, w.inLoop, w.inProc), e, w, entry, inLoop, self);
      LayTyped(code, dep, base + 1, t, w, entry, inLoop, self);
      IfElseTyped(code, dep, base, Size(t, w.inLoop, w.inProc), Size(e, w.inLoop, w.inProc), w.inProc);
    case LoopUntil(b) =>
      SubWellFormed(c, inLoop, w.inLoop, self);
      LoopTyped(code, dep, base, b, If(base), w, entry, inLoop, self);
    case LoopRepeat(b) =>
      SubWellFormed(c, inLoop, w.inLoop, self);
      LoopTyped(code, dep, base, b, Jmp(base), w, entry, inLoop, self);
    case TryCatch(b, h) =>
      var s := Size(b, w.inLoop + 1, w.inProc + 1);
      SubWellFormed(c, inLoop, w.inLoop, self);
      TryPieces(code, dep, base, b, h, w, entry);
      PlaceInside(code, dep, w, inLoop);
      LayTyped(code, dep, base + 4 + s, h, w, entry, inLoop, self);
      LayTyped(code, dep, base + 1, b, Inside(w), entry, inLoop, self);
      TryTyped(code, dep, base, s, Size(h, w.inLoop, w.inProc), w.inProc);
    case _ =>
      LeafTyped(code, dep, base, c, w, entry, inLoop, self);
  }

  lemma SkipTyped(code: Code, dep: seq<nat>, base: nat, w: Place)
    requires |dep| == |code| && Lands(code, dep, base + Size(Skip, w.inLoop, w.inProc), w.inProc)
    ensures TypedFrom(code, dep, base, Size(Skip, w.inLoop, w.inProc)) && Lands(code, dep, base, w.inProc)
  {}

  lemma PlaceInside(code: Code, dep: seq<nat>, w: Place, inLoop: bool)
    requires |dep| == |code| && PlaceOk(code, dep, w, inLoop) && w.inLoop <= w.inProc
    ensures PlaceOk(code, dep, Inside(w), inLoop)
  {}

  lemma SubWellFormed(c: Cmd, inLoop: bool, trys: nat, self: nat)
    requires WellFormed(c, inLoop, trys, self)
    ensures c.Seq? ==> WellFormed(c.first, inLoop, trys, self) && WellFormed(c.second, inLoop, trys, self)
    ensures c.IfThen? || c.IfElse? ==> WellFormed(c.thn, inLoop, trys, self)
    ensures c.IfElse? ==> WellFormed(c.els, inLoop, trys, self)
    ensures c.LoopUntil? || c.LoopRepeat? ==> WellFormed(c.body, true, 0, self)
    ensures c.TryCatch? ==> WellFormed(c.body, inLoop, trys + 1, self) && WellFormed(c.handler, inLoop, trys, self)
  {}

  lemma LeafTyped(code: Code, dep: seq<nat>, base: nat, c: Cmd, w: Place, entry: seq<nat>, inLoop: bool, self: nat)
    requires WellFormed(c, inLoop, w.inLoop, self)
    requires Piece(code, dep, base, c, w, entry) && PlaceOk(code, dep, w, inLoop) && EntriesOk(code, entry, self)
    requires c.Word? || c.Call? || c.While? || c.Break? || c.Continue? || c.Exit?
    ensures TypedFrom(code, dep, base, Size(c, w.inLoop, w.inProc))
    ensures Lands(code, dep, base, w.inProc)
  {
    hide Lay, Nest, Size, Stands;
    LeafUnfold(c, base, w, entry);
    LeafSize(c, w.inLoop, w.inProc);
    if c.Word? || c.Call? {
      NotedAt(dep, base, Nest(c, w.inLoop, w.inProc), 0);
      StandsAt(code, base, Lay(c, base, w, entry), 0);
    } else {
      var n := if c.Exit? then w.inProc else w.inLoop;
      var last := if c.Exit? then Ret else if c.While? then If(w.brk) else if c.Break? then Jmp(w.brk) else Jmp(w.cont);
      StandsSplit(code, base, TryPops(n), [last]);
      StandsAt(code, base + n, [last], 0);
      NotedAt(dep, base, Falling(w.inProc, n), n);
      PopsTyped(code, dep, base, n, w.inProc, last);
    }
  }

  lemma LeafSize(c: Cmd, inLoop: nat, inProc: nat)
    ensures c.Word? || c.Call? ==> Size(c, inLoop, inProc) == 1
    ensures c.While? || c.Break? || c.Continue? ==> Size(c, inLoop, inProc) == inLoop + 1
    ensures c.Exit? ==> Size(c, inLoop, inProc) == inProc + 1
  {}

  lemma {:induction false} SeqPieces(code: Code, dep: seq<nat>, base: nat, a: Cmd, b: Cmd, w: Place, entry: seq<nat>)
    requires Piece(code, dep, base, Cmd.Seq(a, b), w, entry)
    ensures
      var s := Size(a, w.inLoop, w.inProc);
      && Size(Cmd.Seq(a, b), w.inLoop, w.inProc) == s + Size(b, w.inLoop, w.inProc)
      && Piece(code, dep, base + s, b, w, entry)
      && (Lands(code, dep, base + s, w.inProc) ==> Piece(code, dep, base, a, w, entry))
  {
    SeqUnfold(a, b, base, w, entry);
    SizeSeq(a, b, w.inLoop, w.inProc);
    hide Lay, Nest, Size, Stands, Noted;
    var s := Size(a, w.inLoop, w.inProc);
    StandsSplit(code, base, Lay(a, base, w, entry), Lay(b, base + s, w, entry));
    NotedSplit(dep, base, Nest(a, w.inLoop, w.inProc), Nest(b, w.inLoop, w.inProc));
  }

  lemma SizeSeq(a: Cmd, b: Cmd, inLoop: nat, inProc: nat)
    ensures Size(Cmd.Seq(a, b), inLoop, inProc) == Size(a, inLoop, inProc) + Size(b, inLoop, inProc)
  {}

  lemma SizeIf(t: Cmd, e: Cmd, inLoop: nat, inProc: nat)
    ensures Size(IfThen(t), inLoop, inProc) == 1 + Size(t, inLoop, inProc)
    ensures Size(IfElse(t, e), inLoop, inProc) == 2 + Size(t, inLoop, inProc) + Size(e, inLoop, inProc)
  {}

  lemma {:induction false} IfThenPieces(code: Code, dep: seq<nat>, base: nat, t: Cmd, w: Place, entry: seq<nat>)
    requires Piece(code, dep, base, IfThen(t), w, entry)
    ensures
      var end := base + 1 + Size(t, w.inLoop, w.inProc);
      && base + Size(IfThen(t), w.inLoop, w.inProc) == end
      && Piece(code, dep, base + 1, t, w, entry)
      && base < |code| && code[base] == If(end) && dep[base] == w.inProc && Lands(code, dep, end, w.inProc)
  {
    hide Lay, Nest, Size, Stands, Noted;
    Backpatch.ThenUnfold(t, base, w, entry);
    SizeIf(t, Skip, w.inLoop, w.inProc);
    var head := [If(base + 1 + Size(t, w.inLoop, w.inProc))];
    StandsSplit(code, base, head, Lay(t, base + 1, w, entry));
    StandsAt(code, base, head, 0);
    NotedSplit(dep, base, [w.inProc], Nest(t, w.inLoop, w.inProc));
    NotedAt(dep, base, [w.inProc], 0);
  }

  lemma NotedAt(dep: seq<nat>, base: nat, nest: seq<nat>, j: nat)
    requires Noted(dep, base, nest) && j < |nest|
    ensures base + j < |dep| && dep[base + j] == nest[j]
  {}

  lemma {:induction false} IfElsePieces(code: Code, dep: seq<nat>, base: nat, t: Cmd, e: Cmd, w: Place, entry: seq<nat>)
    requires Piece(code, dep, base, IfElse(t, e), w, entry)
    ensures
      var els := base + 2 + Size(t, w.inLoop, w.inProc);
      var end := els + Size(e, w.inLoop, w.inProc);
      && base + Size(IfElse(t, e), w.inLoop, w.inProc) == end
      && Piece(code, dep, base + 1, t, w, entry)
      && Piece(code, dep, els, e, w, entry)
      && els <= |code| && code[base] == If(els) && dep[base] == w.inProc
      && code[els - 1] == Jmp(end) && dep[els - 1] == w.inProc && Lands(code, dep, end, w.inProc)
  {
    hide Lay, Nest, Size, Stands, Noted, IfElseCode;
    Backpatch.ElseUnfold(t, e, base, w, entry);
    SizeIf(t, e, w.inLoop, w.inProc);
    var T := Lay(t, base + 1, w, entry);
    var els := base + 2 + |T|;
    Correct.IfElseParts(code, base, T, Lay(e, els, w, entry));
    var nt, ne := Nest(t, w.inLoop, w.inProc), Nest(e, w.inLoop, w.inProc);
    NotedSplit(dep, base, [w.inProc] + nt + [w.inProc], ne);
    NotedSplit(dep, base, [w.inProc] + nt, [w.inProc]);
    NotedSplit(dep, base, [w.inProc], nt);
    NotedAt(dep, base, [w.inProc], 0);
    NotedAt(dep, els - 1, [w.inProc], 0);
  }

  lemma IfHeadTyped(code: Code, dep: seq<nat>, base: nat, d: nat)
    requires |dep| == |code| && base < |code| && code[base].If? && dep[base] == d
    requires Lands(code, dep, base + 1, d) && Lands(code, dep, code[base].target, d)
    ensures TypedAt(code, dep, base) && Lands(code, dep, base, d)
  {}

  lemma JmpTyped(code: Code, dep: seq<nat>, base: nat)
    requires |dep| == |code| && base < |code| && code[base].Jmp?
    requires Lands(code, dep, code[base].target, dep[base])
    ensures TypedAt(code, dep, base)
  {}

  lemma {:induction false} LoopTyped(code: Code, dep: seq<nat>, base: nat, b: Cmd, i: Inst, w: Place, entry: seq<nat>,
      inLoop: bool, self: nat)
    requires i == If(base) || i == Jmp(base)
    requires WellFormed(b, true, 0, self)
    requires
      var c := if i.If? then LoopUntil(b) else LoopRepeat(b);
      Piece(code, dep, base, c, w, entry) && PlaceOk(code, dep, w, inLoop) && EntriesOk(code, entry, self)
    ensures Size(LoopUntil(b), w.inLoop, w.inProc) == Size(LoopRepeat(b), w.inLoop, w.inProc)
    ensures TypedFrom(code, dep, base, Size(LoopUntil(b), w.inLoop, w.inProc))
    ensures Lands(code, dep, base, w.inProc)
    decreases if i.If? then LoopUntil(b) else LoopRepeat(b), 0
  {
    hide Lay, Nest, Size, Stands, Noted, TypedAt, TypedFrom, EntriesOk;
    LoopPieces(code, dep, base, b, i, w, entry);
    var w' := InnerPlace(b, base, w);
    var s := Size(b, 0, w.inProc);
    HeadLands(code, dep, base, b, w', entry, true, self);
    LayTyped(code, dep, base, b, w', entry, true, self);
    BottomTyped(code, dep, base + s, base, w.inProc);
    TypedOne(code, dep, base + s);
    TypedJoin(code, dep, base, s, 1);
  }

  lemma SizeLoop(b: Cmd, inLoop: nat, inProc: nat)
    ensures Size(LoopUntil(b), inLoop, inProc) == Size(b, 0, inProc) + 1
    ensures Size(LoopRepeat(b), inLoop, inProc) == Size(b, 0, inProc) + 1
  {}

  lemma BottomTyped(code: Code, dep: seq<nat>, at: nat, head: nat, d: nat)
    requires |dep| == |code| && at < |code| && (code[at] == If(head) || code[at] == Jmp(head)) && dep[at] == d
    requires Lands(code, dep, head, d) && Lands(code, dep, at + 1, d)
    ensures TypedAt(code, dep, at)
  {}

  /** A piece that ends at an instruction that is no header starts at one, with its own nesting. */
  lemma {:induction false} HeadLands(code: Code, dep: seq<nat>, base: nat, c: Cmd, w: Place, entry: seq<nat>,
      inLoop: bool, self: nat)
    requires Piece(code, dep, base, c, w, entry) && WellFormed(c, inLoop, w.inLoop, self)
    ensures Lands(code, dep, base, w.inProc)
    decreases c
  {
    hide Lay, Nest, Stands, Noted, Size, WellFormed;
    match c
    case Skip =>
      SkipTyped(code, dep, base, w);
    case Seq(a, b) =>
      SubWellFormed(c, inLoop, w.inLoop, self);
      SeqPieces(code, dep, base, a, b, w, entry);
      HeadLands(code, dep, base + Size(a, w.inLoop, w.inProc), b, w, entry, inLoop, self);
      HeadLands(code, dep, base, a, w, entry, inLoop, self);
    case IfThen(t) =>
      IfThenPieces(code, dep, base, t, w, entry);
    case IfElse(t, e) =>
      IfElsePieces(code, dep, base, t, e, w, entry);
    case LoopUntil(b) =>
      SubWellFormed(c, inLoop, w.inLoop, self);
      LoopPieces(code, dep, base, b, If(base), w, entry);
      HeadLands(code, dep, base, b, InnerPlace(b, base, w), entry, true, self);
    case LoopRepeat(b) =>
      SubWellFormed(c, inLoop, w.inLoop, self);
      LoopPieces(code, dep, base, b, Jmp(base), w, entry);
      HeadLands(code, dep, base, b, InnerPlace(b, base, w), entry, true, self);
    case TryCatch(b, h) =>
      TryPieces(code, dep, base, b, h, w, entry);
    case _ =>
      LeafLands(code, dep, base, c, w, entry, inLoop, self);
  }

  lemma LeafLands(code: Code, dep: seq<nat>, base: nat, c: Cmd, w: Place, entry: seq<nat>, inLoop: bool, self: nat)
    requires Piece(code, dep, base, c, w, entry) && WellFormed(c, inLoop, w.inLoop, self)
    requires c.Word? || c.Call? || c.While? || c.Break? || c.Continue? || c.Exit?
    ensures Lands(code, dep, base, w.inProc)
  {
    hide Lay, Nest, Size, Stands;
    LeafUnfold(c, base, w, entry);
    LeafSize(c, w.inLoop, w.inProc);
    StandsAt(code, base, Lay(c, base, w, entry), 0);
    NotedAt(dep, base, Nest(c, w.inLoop, w.inProc), 0);
    if !c.Word? && !c.Call? {
      var n := if c.Exit? then w.inProc else w.inLoop;
      var last := if c.Exit? then Ret else if c.While? then If(w.brk) else if c.Break? then Jmp(w.brk) else Jmp(w.cont);
      PopLands(code, dep, base, n, w.inProc, last, 0);
    }
  }

  lemma {:induction false} LoopPieces(code: Code, dep: seq<nat>, base: nat, b: Cmd, i: Inst, w: Place, entry: seq<nat>)
    requires i == If(base) || i == Jmp(base)
    requires Piece(code, dep, base, if i.If? then LoopUntil(b) else LoopRepeat(b), w, entry)
    ensures
      var bottom := base + Size(b, 0, w.inProc);
      && Piece(code, dep, base, b, InnerPlace(b, base, w), entry)
      && bottom < |code| && code[bottom] == i && dep[bottom] == w.inProc && Lands(code, dep, bottom + 1, w.inProc)
      && Size(LoopUntil(b), w.inLoop, w.inProc) == Size(LoopRepeat(b), w.inLoop, w.inProc) == bottom + 1 - base
  {
    hide Lay, Nest, Size, Stands, Noted;
    LoopUnfold(b, base, w, entry);
    SizeLoop(b, w.inLoop, w.inProc);
    var B, nb := Lay(b, base, InnerPlace(b, base, w), entry), Nest(b, 0, w.inProc);
    StandsSplit(code, base, B, [i]);
    StandsAt(code, base + |B|, [i], 0);
    NotedSplit(dep, base, nb, [w.inProc]);
    NotedAt(dep, base + |nb|, [w.inProc], 0);
  }

  lemma IfElseTyped(code: Code, dep: seq<nat>, base: nat, m: nat, n: nat, d: nat)
    requires |dep| == |code|
    requires TypedFrom(code, dep, base + 1, m) && TypedFrom(code, dep, base + 2 + m, n)
    requires base < |code| && code[base].If? && dep[base] == d
    requires Lands(code, dep, base + 1, d) && Lands(code, dep, code[base].target, d)
    requires base + 1 + m < |code| && code[base + 1 + m].Jmp? && dep[base + 1 + m] == d
    requires Lands(code, dep, code[base + 1 + m].target, d)
    ensures TypedFrom(code, dep, base, 2 + m + n) && Lands(code, dep, base, d)
  {
    hide TypedAt;
    IfHeadTyped(code, dep, base, d);
    JmpTyped(code, dep, base + 1 + m);
  }

  lemma TryTyped(code: Code, dep: seq<nat>, base: nat, m: nat, n: nat, d: nat)
    requires |dep| == |code|
    requires TypedFrom(code, dep, base + 1, m) && TypedFrom(code, dep, base + 4 + m, n)
    requires base + 4 + m < |code|
    requires code[base] == Inst.Try(base + 3 + m) && dep[base] == d && Lands(code, dep, base + 1, d + 1)
    requires code[base + 1 + m] == TryPop && dep[base + 1 + m] == d + 1
    requires code[base + 2 + m].Jmp? && dep[base + 2 + m] == d && Lands(code, dep, code[base + 2 + m].target, d)
    requires code[base + 3 + m] == Catch && dep[base + 3 + m] == d + 1 && Lands(code, dep, base + 4 + m, d)
    ensures TypedFrom(code, dep, base, 4 + m + n) && Lands(code, dep, base, d)
  {
    assert TypedAt(code, dep, base) && TypedAt(code, dep, base + 1 + m);
    assert TypedAt(code, dep, base + 2 + m) && TypedAt(code, dep, base + 3 + m);
    hide TypedAt;
  }

  lemma {:induction false} TryPieces(code: Code, dep: seq<nat>, base: nat, b: Cmd, h: Cmd, w: Place, entry: seq<nat>)
    requires Piece(code, dep, base, TryCatch(b, h), w, entry)
    ensures
      var leave := base + 1 + Size(b, w.inLoop + 1, w.inProc + 1);
      var end := leave + 3 + Size(h, w.inLoop, w.inProc);
      var d := w.inProc;
      && base + Size(TryCatch(b, h), w.inLoop, w.inProc) == end
      && Piece(code, dep, base + 1, b, Inside(w), entry)
      && Piece(code, dep, leave + 3, h, w, entry)
      && leave + 3 < |code| && code[base] == Inst.Try(leave + 2) && dep[base] == d
      && code[leave] == TryPop && dep[leave] == d + 1
      && code[leave + 1] == Jmp(end) && dep[leave + 1] == d && Lands(code, dep, end, d)
      && code[leave + 2] == Catch && dep[leave + 2] == d + 1
  {
    hide Lay, Nest, Size, Stands, Noted, TryCode, TryNest;
    TryLayout(b, h, base, w, entry);
    TryUnfold(b, h, base, w, entry);
    SizeTry(b, h, w.inLoop, w.inProc);
    var B := Lay(b, base + 1, Inside(w), entry);
    var leave := base + 1 + |B|;
    Correct.TryParts(code, base, B, Lay(h, leave + 3, w, entry));
    TryNoted(dep, base, w.inProc, Nest(b, w.inLoop + 1, w.inProc + 1), Nest(h, w.inLoop, w.inProc));
  }

  lemma SizeTry(b: Cmd, h: Cmd, inLoop: nat, inProc: nat)
    ensures Size(TryCatch(b, h), inLoop, inProc) == 4 + Size(b, inLoop + 1, inProc + 1) + Size(h, inLoop, inProc)
  {}

  lemma TryNoted(dep: seq<nat>, base: nat, d: nat, nb: seq<nat>, nh: seq<nat>)
    requires Noted(dep, base, TryNest(d, nb, nh))
    ensures
      var leave := base + 1 + |nb|;
      && leave + 3 <= |dep|
      && dep[base] == d && Noted(dep, base + 1, nb)
      && dep[leave] == d + 1 && dep[leave + 1] == d && dep[leave + 2] == d + 1
      && Noted(dep, leave + 3, nh)
  {
    hide Noted;
    var leave := base + 1 + |nb|;
    var middle := [d + 1, d, d + 1];
    NotedSplit(dep, base, [d] + nb + middle, nh);
    NotedSplit(dep, base, [d] + nb, middle);
    NotedSplit(dep, base, [d], nb);
    NotedAt(dep, base, [d], 0);
    NotedAt(dep, leave, middle, 0);
    NotedAt(dep, leave, middle, 1);
    NotedAt(dep, leave, middle, 2);
  }

  // ----- whole programs -----

  lemma ProcTyped(code: Code, dep: seq<nat>, at: nat, pr: Proc, entry: seq<nat>, self: nat)
    requires |dep| == |code| && WellFormed(pr.body, false, 0, self) && EntriesOk(code, entry, self)
    requires Stands(code, at, LayProc(pr, at, entry)) && Noted(dep, at, ProcNest(pr))
    ensures TypedFrom(code, dep, at, |ProcNest(pr)|)
  {
    hide Lay, Nest, Stands, Noted, Size, LayProc;
    var w := Place(0, 0, 0, 0);
    var n := Size(pr.body, 0, 0);
    var nest := Nest(pr.body, 0, 0);
    Correct.ProcParts(code, pr, at, entry);
    NotedSplit(dep, at, [0] + nest, [0]);
    NotedSplit(dep, at, [0], nest);
    NotedAt(dep, at, [0], 0);
    NotedAt(dep, at + 1 + n, [0], 0);
    HeadLands(code, dep, at + 1, pr.body, w, entry, false, self);
    LayTyped(code, dep, at + 1, pr.body, w, entry, false, self);
    assert TypedAt(code, dep, at) && TypedAt(code, dep, at + 1 + n);
  }

  lemma {:induction false} AllNoted(p: Prog, f: nat)
    requires f < |p|
    ensures Noted(AllNest(p), |AllNest(p[..f])|, ProcNest(p[f]))
    decreases |p|
  {
    var n := |p| - 1;
    var before, last := AllNest(p[..n]), ProcNest(p[n]);
    if f < n {
      AllNoted(p[..n], f);
      hide AllNest, ProcNest;
      assert p[..n][..f] == p[..f];
    }
  }

  lemma {:induction false} ProgTyped(p: Prog, code: Code, entry: seq<nat>, k: nat)
    requires WellFormedProg(p) && Loaded(code, entry, p) && k <= |p|
    requires |code| == |AllNest(p)| && forall f :: 0 <= f < |p| ==> entry[f] == |AllNest(p[..f])|
    ensures TypedFrom(code, AllNest(p), 0, |AllNest(p[..k])|)
    decreases k
  {
    hide TypedAt, LayProc, Stands;
    if k > 0 {
      var f := k - 1;
      ProgTyped(p, code, entry, f);
      AllNoted(p, f);
      assert p[..k][..f] == p[..f] && p[..k][f] == p[f];
      forall g | 0 <= g <= f ensures entry[g] < |code| && code[entry[g]].Function? {
        Correct.ProcParts(code, p[g], entry[g], entry);
      }
      ProcTyped(code, AllNest(p), entry[f], p[f], entry, f);
      TypedJoin(code, AllNest(p), 0, |AllNest(p[..f])|, |ProcNest(p[f])|);
    } else {
      assert p[..0] == [];
    }
  }

  /** The compiler's output for a well-formed program nests its TRYs properly, and every
      instruction inside a TRY carries the flag that says so; every jump names an entry of the table. */
  lemma {:induction false} CompiledTyped(p: Prog, s: OnePass.CState)
    requires WellFormedProg(p)
    requires OnePass.Compile(OnePass.Initial, ProgToks(p)) == Some(s)
    ensures Typed(OnePass.FixAddresses(s), AllNest(p))
    ensures |s.words| == |AllNest(p)| && |s.procs| == |p|
    ensures forall j :: 0 <= j < |s.words| && AllNest(p)[j] > 0 ==> s.words[j].inTry
    ensures forall j :: 0 <= j < |s.words| && HasTarget(s.words[j].inst) ==> s.words[j].inst.target < |s.addrs|
  {
    hide TypedAt, OnePass.Compile, ProcStands, Stands;
    var s' := OnePassIsLayout(p);
    var code := OnePass.FixAddresses(s);
    ProgTyped(p, code, s.procs, |p|);
    assert p[..|p|] == p;
    forall j | 0 <= j < |s.words|
      ensures AllNest(p)[j] > 0 ==> s.words[j].inTry
      ensures HasTarget(s.words[j].inst) ==> s.words[j].inst.target < |s.addrs|
    {
      Flagged(p, s, |p|, j);
    }
  }

  ghost predicate WordOk(s: OnePass.CState, dep: seq<nat>, j: nat)
    requires j < |s.words| && j < |dep|
  {
    && (dep[j] > 0 ==> s.words[j].inTry)
    && (HasTarget(s.words[j].inst) ==> s.words[j].inst.target < |s.addrs|)
  }

  lemma FlaggedIn(s: OnePass.CState, dep: seq<nat>, pr: Proc, at: nat, entry: seq<nat>, j: nat)
    requires ProcStands(s, pr, at, entry) && Noted(dep, at, ProcNest(pr)) && at <= j < at + |ProcNest(pr)|
    ensures j < |s.words| && j < |dep| && WordOk(s, dep, j)
  {
    hide LayProc, ProcNest;
    NotedAt(dep, at, ProcNest(pr), j - at);
    assert FilledAt(s.words[j], s.addrs, false, 0, LayProc(pr, at, entry)[j - at], ProcNest(pr)[j - at]);
  }

  lemma {:induction false} Flagged(p: Prog, s: OnePass.CState, k: nat, j: nat)
    requires k <= |p| == |s.procs| && j < |AllNest(p[..k])| <= |AllNest(p)|
    requires forall f :: 0 <= f < |p| ==> s.procs[f] == |AllNest(p[..f])| && ProcStands(s, p[f], s.procs[f], s.procs)
    requires |s.words| == |AllNest(p)|
    ensures WordOk(s, AllNest(p), j)
    decreases k
  {
    hide LayProc, ProcNest, ProcStands, Noted, WordOk, FilledAt;
    if k > 0 {
      var f := k - 1;
      assert p[..k][..f] == p[..f] && p[..k][f] == p[f];
      AllNoted(p, f);
      hide AllNest;
      if j < |AllNest(p[..f])| {
        Flagged(p, s, f, j);
      } else {
        AllNestStep(p, k);
        FlaggedIn(s, AllNest(p), p[f], s.procs[f], s.procs, j);
      }
    }
  }

  lemma AllNestStep(p: Prog, k: nat)
    requires 0 < k <= |p|
    ensures AllNest(p[..k]) == AllNest(p[..k - 1]) + ProcNest(p[k - 1])
  {
    hide ProcNest;
    assert p[..k][..k - 1] == p[..k - 1] && p[..k][k - 1] == p[k - 1];
  }
}
