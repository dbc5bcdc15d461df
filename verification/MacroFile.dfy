/** Dumping the macro table to its file and loading it again. */
module MacroFile {
  import opened Compare
  import opened Sorted
  import opened Macros
  import F = FoldTree
  import opened Options

  datatype Line = Line(name: string, def: string)

  /** macrodump: the macros in order. */
  function Dump(t: Table): seq<Line> {
    if t.Tip? then [] else Dump(t.left) + [Line(t.name, t.def)] + Dump(t.right)
  }

  function EntriesOf(lines: seq<Line>): Entries {
    seq(|lines|, i requires 0 <= i < |lines| => Entry(Key(LowerCase(lines[i].name)), Key(lines[i].def)))
  }

  /** The table whose nodes are the lines, linked in the given shape. */
  function Build(lines: seq<Line>, s: F.Shape): Table
    requires F.Ranged(s, 0, |lines|)
  {
    if s.Tip? then Tip
    else Macro(Build(lines, s.left), LowerCase(lines[s.node].name), lines[s.node].def, Build(lines, s.right))
  }

  /** macroload. */
  function Load(lines: seq<Line>): Table {
    F.FoldedRanged(0, |lines|);
    Build(lines, F.Loaded(|lines|))
  }

  function Pick(es: Entries, nodes: seq<nat>): Entries
    requires forall i :: 0 <= i < |nodes| ==> nodes[i] < |es|
  {
    seq(|nodes|, i requires 0 <= i < |nodes| => es[nodes[i]])
  }

  lemma {:induction false} OrderRanged(s: F.Shape, lo: nat, hi: nat)
    requires F.Ranged(s, lo, hi)
    ensures forall i :: 0 <= i < |F.InOrder(s)| ==> lo <= F.InOrder(s)[i] < hi
  {
    if s.At? {
      OrderRanged(s.left, lo, hi);
      OrderRanged(s.right, lo, hi);
    }
  }

  lemma {:induction false} BuildContents(lines: seq<Line>, s: F.Shape)
    requires F.Ranged(s, 0, |lines|)
    requires forall i :: 0 <= i < |F.InOrder(s)| ==> F.InOrder(s)[i] < |lines|
    ensures Contents(Build(lines, s)) == Pick(EntriesOf(lines), F.InOrder(s)) && AllLower(Build(lines, s))
  {
    hide LowerCase, Contents, EntriesOf, Pick;
    EntriesLength(lines);
    if s.Tip? {
      NoneBuilt(lines);
    } else {
      OrderRanged(s.left, 0, |lines|);
      OrderRanged(s.right, 0, |lines|);
      BuildContents(lines, s.left);
      BuildContents(lines, s.right);
      LowerAgain(lines[s.node].name);
      Unfold(Build(lines, s));
      EntryAt(lines, s.node);
      PickSplit(EntriesOf(lines), F.InOrder(s.left), s.node, F.InOrder(s.right));
    }
  }

  lemma NoneBuilt(lines: seq<Line>)
    ensures Contents(Tip) == Pick(EntriesOf(lines), [])
  {}

  lemma EntriesLength(lines: seq<Line>)
    ensures |EntriesOf(lines)| == |lines|
  {}

  lemma EntryAt(lines: seq<Line>, i: nat)
    requires i < |lines|
    ensures EntriesOf(lines)[i] == Entry(Key(LowerCase(lines[i].name)), Key(lines[i].def))
  {}

  lemma PickSplit(es: Entries, a: seq<nat>, x: nat, b: seq<nat>)
    requires forall i :: 0 <= i < |a| ==> a[i] < |es|
    requires forall i :: 0 <= i < |b| ==> b[i] < |es|
    requires x < |es|
    ensures forall i :: 0 <= i < |a + [x] + b| ==> (a + [x] + b)[i] < |es|
    ensures Pick(es, a + [x] + b) == Pick(es, a) + [es[x]] + Pick(es, b)
  {}

  /** Loading keeps the order of the file, whatever the shape of the tree. */
  lemma LoadContents(lines: seq<Line>)
    ensures Contents(Load(lines)) == EntriesOf(lines) && AllLower(Load(lines))
  {
    var s, n := F.Loaded(|lines|), |lines|;
    F.FoldedRanged(0, n);
    OrderRanged(s, 0, n);
    F.FoldedOrder(0, n);
    BuildContents(lines, s);
    assert Pick(EntriesOf(lines), F.Range(0, n)) == EntriesOf(lines);
  }

  lemma {:induction false} DumpEntries(t: Table)
    requires AllLower(t)
    ensures EntriesOf(Dump(t)) == Contents(t)
  {
    if t.Macro? {
      DumpEntries(t.left);
      DumpEntries(t.right);
      EntriesSplit(Dump(t.left), Line(t.name, t.def), Dump(t.right));
    }
  }

  lemma EntriesSplit(l: seq<Line>, m: Line, r: seq<Line>)
    ensures EntriesOf(l + [m] + r) == EntriesOf(l) + [Entry(Key(LowerCase(m.name)), Key(m.def))] + EntriesOf(r)
  {
    hide LowerCase;
  }

  /** A table dumped and loaded again is a valid table with the same macros: every lookup, in any case,
      gives the same definition. */
  lemma LoadDump(t: Table, name: string)
    requires Valid(t)
    ensures Valid(Load(Dump(t))) && Contents(Load(Dump(t))) == Contents(t)
    ensures Expand(Load(Dump(t)), name) == Expand(t, name)
  {
    hide Ascending;
    DumpEntries(t);
    LoadContents(Dump(t));
    ExpandRefines(t, name);
    ExpandRefines(Load(Dump(t)), name);
  }

  /** And the loaded tree is as deep as its shape. */
  lemma {:induction false} BuildDepth(lines: seq<Line>, s: F.Shape)
    requires F.Ranged(s, 0, |lines|)
    ensures Depth(Build(lines, s)) == F.Height(s)
  {
    if s.At? {
      BuildDepth(lines, s.left);
      BuildDepth(lines, s.right);
    }
  }

  function Depth(t: Table): nat {
    if t.Tip? then 0 else 1 + F.Max(Depth(t.left), Depth(t.right))
  }

  /** The depth of a loaded table is logarithmic in its size exactly for up to six macros, and eight. */
  lemma LoadDepthIff(lines: seq<Line>)
    ensures Depth(Load(lines)) <= F.Bits(|lines|) <==> |lines| <= 6 || |lines| == 8
  {
    F.FoldedRanged(0, |lines|);
    BuildDepth(lines, F.Loaded(|lines|));
    F.LowestIff(|lines|);
  }

  // ----- the loader -----

  /** Following the pointers from a node one reads the given table. */
  predicate Holds(l: seq<int>, r: seq<int>, names: seq<string>, defs: seq<string>, node: int, t: Table)
    decreases t
  {
    match t
    case Tip => node == F.NULL
    case Macro(a, name, def, b) =>
      && 0 <= node < |l| && node < |r| && node < |names| && node < |defs|
      && names[node] == name && defs[node] == def
      && Holds(l, r, names, defs, l[node], a) && Holds(l, r, names, defs, r[node], b)
  }

  ghost predicate Entered(names: seq<string>, defs: seq<string>, lines: seq<Line>) {
    && |names| == |defs| == |lines|
    && forall i :: 0 <= i < |lines| ==> names[i] == LowerCase(lines[i].name) && defs[i] == lines[i].def
  }

  lemma {:induction false} ReadsHolds(l: seq<int>, r: seq<int>, names: seq<string>, defs: seq<string>, node: int,
      lines: seq<Line>, s: F.Shape)
    requires F.Reads(l, r, node, s) && F.Ranged(s, 0, |lines|) && Entered(names, defs, lines)
    ensures Holds(l, r, names, defs, node, Build(lines, s))
    decreases s
  {
    hide LowerCase;
    if s.At? {
      ReadsHolds(l, r, names, defs, l[node], lines, s.left);
      ReadsHolds(l, r, names, defs, r[node], lines, s.right);
    }
  }

  class Loader {
    const chain: F.Chain
    var names: seq<string>
    var defs: seq<string>
    var macrotop: int

    constructor ()
      ensures fresh(chain) && chain.Linked(0) && names == [] && defs == [] && macrotop == F.NULL
    {
      chain := new F.Chain();
      names, defs, macrotop := [], [], F.NULL;
    }

    /** What has been read so far hangs on the chain, from its first node on. */
    ghost predicate Chained(lines: seq<Line>)
      reads this, chain
    {
      && chain.Linked(|lines|) && Entered(names, defs, lines)
      && macrotop == if lines == [] then F.NULL else 0
    }

    /** macrochain: one macro, and the rest of the file after it. */
    method MacroChain(lastnode: int, file: seq<Line>, ghost lines: seq<Line>) returns (count: nat)
      requires Chained(lines) && lastnode == |lines| - 1
      modifies this, chain
      ensures Chained(lines + file) && count == |file|
      decreases |file|
    {
      hide LowerCase;
      if file == [] {
        assert lines + file == lines;
        return 0;
      }
      var node := |names|;
      names, defs := names + [LowerCase(file[0].name)], defs + [file[0].def];
      chain.Append(lastnode, |lines|);
      if macrotop == F.NULL {
        macrotop := node;
      }
      assert lines + [file[0]] + file[1..] == lines + file;
      var more := MacroChain(node, file[1..], lines + [file[0]]);
      count := 1 + more;
    }

    /** macroload: the chain is read, its middle becomes the top, and the chain is folded around it. */
    method MacroLoad(file: seq<Line>)
      requires Chained([])
      modifies this, chain
      ensures Holds(chain.left, chain.right, names, defs, macrotop, Load(file))
    {
      hide LowerCase, F.Reads, F.Folded, F.FoldedLeft;
      assert [] + file == file;
      var count := MacroChain(F.NULL, file, []);
      var n := count;
      count := count / 2;
      ghost var steps := 0;
      while count > 0
        invariant 0 <= count && steps + count == n / 2 && chain.Linked(n) && Entered(names, defs, file)
        invariant macrotop == if n == 0 then F.NULL else steps
      {
        macrotop := chain.right[macrotop];
        count := count - 1;
        steps := steps + 1;
      }
      if macrotop != F.NULL {
        chain.Fold(macrotop, 0, n);
        F.LoadedFolds(n);
      } else {
        NothingLoaded(chain.left, chain.right);
      }
      F.FoldedRanged(0, n);
      ReadsHolds(chain.left, chain.right, names, defs, macrotop, file, F.Loaded(n));
    }
  }

  lemma NothingLoaded(l: seq<int>, r: seq<int>)
    ensures F.Reads(l, r, F.NULL, F.Loaded(0))
  {}
}
