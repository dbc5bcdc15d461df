/** The comparator of array keys and values: array_tree_compare and array_tree_compare_arrays. */
module Compare {

  /** The types whose values are compared as numbers. */
  datatype Kind = Integer | Object | Variable | LocalVariable | ScopedVariable

  /** A stack item as far as comparison looks at it. An array is its keys and values in order. */
  datatype Item = Num(kind: Kind, n: int) | Str(s: string) | Arr(entries: seq<Entry>)
  datatype Entry = Entry(key: Item, val: Item)

  const PROG_STRING := 9
  const PROG_ARRAY := 16

  function Code(a: Item): int {
    match a
    case Num(Integer, _) => 2
    case Num(Object, _) => 4
    case Num(Variable, _) => 5
    case Num(LocalVariable, _) => 6
    case Num(ScopedVariable, _) => 7
    case Str(_) => PROG_STRING
    case Arr(_) => PROG_ARRAY
  }

  /** tolower, in the C locale. */
  function Lower(c: char): char {
    if 'A' <= c <= 'Z' then (c as int + 32) as char else c
  }

  /** The character C sees at the head of a string, 0 at its end. */
  function Head(s: string, fold: bool): int {
    if s == "" then 0 else if fold then Lower(s[0]) as int else s[0] as int
  }

  /** strcmp, or string_compare when fold is set. */
  function StrCmp(s: string, t: string, fold: bool): int
    decreases |s|
  {
    var c, d := Head(s, fold), Head(t, fold);
    if c != 0 && c == d then StrCmp(s[1..], t[1..], fold) else c - d
  }

  function Cmp(a: Item, b: Item, caseSens: bool): int
    decreases a, 1
  {
    if Code(a) != Code(b) then Code(a) - Code(b)
    else match a
      case Str(s) => StrCmp(s, b.s, !caseSens)
      case Arr(_) => CmpFrom(a, b, 0, caseSens)
      case Num(_, n) => n - b.n
  }

  /** Comparing two arrays from their i-th entries on. */
  function CmpFrom(a: Item, b: Item, i: nat, caseSens: bool): int
    requires a.Arr? && b.Arr? && i <= |a.entries| && i <= |b.entries|
    decreases a, 0, |a.entries| - i
  {
    if i < |a.entries| && i < |b.entries| then
      var r := CmpEntry(a.entries[i], b.entries[i], caseSens);
      if r != 0 then r else CmpFrom(a, b, i + 1, caseSens)
    else if i < |a.entries| then 1
    else if i < |b.entries| then -1
    else 0
  }

  function CmpEntry(x: Entry, y: Entry, caseSens: bool): int
    decreases x
  {
    var r := Cmp(x.key, y.key, caseSens);
    if r != 0 then r else Cmp(x.val, y.val, caseSens)
  }

  // ----- a total preorder -----

  predicate Opposite(m: int, n: int) {
    (m < 0 <==> n > 0) && (m > 0 <==> n < 0)
  }

  /** From x <= y and y <= z follows x <= z, and strictly when either is strict; the arguments are the
      results of comparing x with y, y with z and x with z. */
  predicate Chains(xy: int, yz: int, xz: int) {
    xy <= 0 && yz <= 0 ==> xz <= 0 && (xz == 0 ==> xy == 0 && yz == 0)
  }

  lemma {:induction false} StrOpposite(s: string, t: string, fold: bool)
    ensures Opposite(StrCmp(s, t, fold), StrCmp(t, s, fold))
    decreases |s|
  {
    if Head(s, fold) != 0 && Head(s, fold) == Head(t, fold) {
      StrOpposite(s[1..], t[1..], fold);
    }
  }

  lemma {:induction false} StrChains(s: string, t: string, u: string, fold: bool)
    ensures Chains(StrCmp(s, t, fold), StrCmp(t, u, fold), StrCmp(s, u, fold))
    decreases |s|
  {
    if Head(s, fold) != 0 && Head(s, fold) == Head(t, fold) == Head(u, fold) {
      StrChains(s[1..], t[1..], u[1..], fold);
    }
  }

  /** Comparing the other way round gives the opposite sign; in particular every item equals itself. */
  lemma {:induction false} CmpOpposite(a: Item, b: Item, cs: bool)
    ensures Opposite(Cmp(a, b, cs), Cmp(b, a, cs))
    decreases a, 1
  {
    if a.Str? && b.Str? {
      StrOpposite(a.s, b.s, !cs);
    } else if a.Arr? && b.Arr? {
      FromOpposite(a, b, 0, cs);
    }
  }

  lemma {:induction false} FromOpposite(a: Item, b: Item, i: nat, cs: bool)
    requires a.Arr? && b.Arr? && i <= |a.entries| && i <= |b.entries|
    ensures Opposite(CmpFrom(a, b, i, cs), CmpFrom(b, a, i, cs))
    decreases a, 0, |a.entries| - i
  {
    if i < |a.entries| && i < |b.entries| {
      EntryOpposite(a.entries[i], b.entries[i], cs);
      FromOpposite(a, b, i + 1, cs);
    }
  }

  lemma {:induction false} EntryOpposite(x: Entry, y: Entry, cs: bool)
    ensures Opposite(CmpEntry(x, y, cs), CmpEntry(y, x, cs))
    decreases x
  {
    CmpOpposite(x.key, y.key, cs);
    CmpOpposite(x.val, y.val, cs);
  }

  /** Transitivity, through the mutual recursion of keys, values and nested arrays. */
  lemma {:induction false} CmpChains(a: Item, b: Item, c: Item, cs: bool)
    ensures Chains(Cmp(a, b, cs), Cmp(b, c, cs), Cmp(a, c, cs))
    decreases a, 1
  {
    if a.Str? && b.Str? && c.Str? {
      StrChains(a.s, b.s, c.s, !cs);
    } else if a.Arr? && b.Arr? && c.Arr? {
      FromChains(a, b, c, 0, cs);
    }
  }

  lemma {:induction false} FromChains(a: Item, b: Item, c: Item, i: nat, cs: bool)
    requires a.Arr? && b.Arr? && c.Arr? && i <= |a.entries| && i <= |b.entries| && i <= |c.entries|
    ensures Chains(CmpFrom(a, b, i, cs), CmpFrom(b, c, i, cs), CmpFrom(a, c, i, cs))
    decreases a, 0, |a.entries| - i
  {
    if i < |a.entries| && i < |b.entries| && i < |c.entries| {
      EntryChains(a.entries[i], b.entries[i], c.entries[i], cs);
      FromChains(a, b, c, i + 1, cs);
    }
  }

  lemma {:induction false} EntryChains(x: Entry, y: Entry, z: Entry, cs: bool)
    ensures Chains(CmpEntry(x, y, cs), CmpEntry(y, z, cs), CmpEntry(x, z, cs))
    decreases x
  {
    CmpChains(x.key, y.key, z.key, cs);
    CmpChains(x.val, y.val, z.val, cs);
  }

  // ----- which order it is -----

  /** The order of the types. */
  function Rank(a: Item): nat {
    match a
    case Num(Integer, _) => 0
    case Num(Object, _) => 1
    case Num(Variable, _) => 2
    case Num(LocalVariable, _) => 3
    case Num(ScopedVariable, _) => 4
    case Str(_) => 5
    case Arr(_) => 6
  }

  /** Items of different types come in the order of the types, numbers of one type by size. */
  lemma {:induction false} NumbersBySize(a: Item, b: Item, cs: bool)
    ensures Rank(a) < Rank(b) ==> Cmp(a, b, cs) < 0
    ensures Rank(a) > Rank(b) ==> Cmp(a, b, cs) > 0
    ensures a.Num? && b.Num? && a.kind == b.kind ==>
              (Cmp(a, b, cs) < 0 <==> a.n < b.n) && (Cmp(a, b, cs) > 0 <==> a.n > b.n)
  {}

  /** The i-th character as C sees it, 0 at the end. */
  function CharAt(s: string, i: nat, fold: bool): int {
    if i >= |s| then 0 else if fold then Lower(s[i]) as int else s[i] as int
  }

  /** The first i characters are there in both strings and the same. */
  ghost predicate SameTo(s: string, t: string, i: nat, fold: bool) {
    && i <= |s| && i <= |t|
    && forall j :: 0 <= j < i ==> CharAt(s, j, fold) == CharAt(t, j, fold) != 0
  }

  /** After a common part s ends first, or its next character is less. */
  ghost predicate Sooner(s: string, t: string, i: nat, fold: bool) {
    SameTo(s, t, i, fold) && CharAt(s, i, fold) < CharAt(t, i, fold)
  }

  lemma {:induction false} Decides(s: string, t: string, fold: bool) returns (i: nat)
    ensures SameTo(s, t, i, fold) && StrCmp(s, t, fold) == CharAt(s, i, fold) - CharAt(t, i, fold)
    ensures StrCmp(s, t, fold) == 0 ==> CharAt(s, i, fold) == CharAt(t, i, fold) == 0
    decreases |s|
  {
    i := 0;
    if Head(s, fold) != 0 && Head(s, fold) == Head(t, fold) {
      var k := Decides(s[1..], t[1..], fold);
      i := k + 1;
      forall j | 0 <= j < i ensures CharAt(s, j, fold) == CharAt(t, j, fold) != 0 {
        if j > 0 {
          assert CharAt(s[1..], j - 1, fold) == CharAt(t[1..], j - 1, fold);
        }
      }
    }
  }

  lemma DecidesOnce(s: string, t: string, fold: bool, i: nat, j: nat)
    requires SameTo(s, t, i, fold) && SameTo(s, t, j, fold)
    requires CharAt(s, i, fold) != CharAt(t, i, fold) || CharAt(s, i, fold) == 0
    requires CharAt(s, j, fold) != CharAt(t, j, fold) || CharAt(s, j, fold) == 0
    ensures i == j
  {}

  /** Strings are ordered by their first different character, a string before those it begins. */
  lemma {:induction false} StringsByCharacter(s: string, t: string, fold: bool)
    ensures StrCmp(s, t, fold) < 0 <==> exists i: nat :: Sooner(s, t, i, fold)
    ensures StrCmp(s, t, fold) > 0 <==> exists i: nat :: Sooner(t, s, i, fold)
  {
    var i := Decides(s, t, fold);
    if j: nat :| Sooner(s, t, j, fold) {
      DecidesOnce(s, t, fold, i, j);
    }
    if j: nat :| Sooner(t, s, j, fold) {
      DecidesOnce(s, t, fold, i, j);
    }
    assert StrCmp(s, t, fold) < 0 ==> Sooner(s, t, i, fold);
    assert StrCmp(s, t, fold) > 0 ==> Sooner(t, s, i, fold);
  }

  predicate Ended(s: string) {
    forall i :: 0 <= i < |s| ==> s[i] != '\0'
  }

  lemma {:induction false} PrefixFirst(s: string, t: string, fold: bool)
    requires Ended(s + t) && t != ""
    ensures StrCmp(s, s + t, fold) < 0
  {
    StringsByCharacter(s, s + t, fold);
    assert forall i :: 0 <= i < |s| ==> s[i] == (s + t)[i];
    assert (s + t)[|s|] == t[0];
    assert Sooner(s, s + t, |s|, fold);
  }

  /** d is the small letter of the capital c. */
  predicate Small(c: char, d: char) {
    'A' <= c <= 'Z' && 'a' <= d <= 'z' && d as int - 'a' as int == c as int - 'A' as int
  }

  predicate ButForCase(c: char, d: char) {
    c == d || Small(c, d) || Small(d, c)
  }

  predicate AllButForCase(s: string, t: string) {
    |s| == |t| && forall i :: 0 <= i < |s| ==> ButForCase(s[i], t[i])
  }

  lemma LowerIff(c: char, d: char)
    ensures Lower(c) == Lower(d) <==> ButForCase(c, d)
    ensures Lower(c) == '\0' <==> c == '\0'
  {}

  /** Folding comparison finds two strings equal exactly when they differ in nothing but the case of letters;
      comparison without folding when they do not differ. */
  lemma {:induction false} FoldsIff(s: string, t: string)
    requires Ended(s) && Ended(t)
    ensures StrCmp(s, t, true) == 0 <==> AllButForCase(s, t)
    ensures StrCmp(s, t, false) == 0 <==> s == t
  {
    hide Lower, ButForCase;
    forall i | 0 <= i < |s| ensures CharAt(s, i, true) != 0 && CharAt(s, i, false) != 0 {
      LowerIff(s[i], s[i]);
    }
    forall i | 0 <= i < |t| ensures CharAt(t, i, true) != 0 && CharAt(t, i, false) != 0 {
      LowerIff(t[i], t[i]);
    }
    forall i | 0 <= i < |s| && i < |t|
      ensures CharAt(s, i, true) == CharAt(t, i, true) <==> ButForCase(s[i], t[i])
      ensures CharAt(s, i, false) == CharAt(t, i, false) <==> s[i] == t[i]
    {
      LowerIff(s[i], t[i]);
    }
    ZeroIff(s, t, true);
    ZeroIff(s, t, false);
  }

  lemma {:induction false} ZeroIff(s: string, t: string, fold: bool)
    requires forall i :: 0 <= i < |s| ==> CharAt(s, i, fold) != 0
    requires forall i :: 0 <= i < |t| ==> CharAt(t, i, fold) != 0
    ensures StrCmp(s, t, fold) == 0 <==>
            |s| == |t| && forall i :: 0 <= i < |s| ==> CharAt(s, i, fold) == CharAt(t, i, fold)
  {
    hide Lower;
    var i := Decides(s, t, fold);
    if |s| == |t| && forall i :: 0 <= i < |s| ==> CharAt(s, i, fold) == CharAt(t, i, fold) {
      DecidesOnce(s, t, fold, i, |s|);
    }
  }

  /** A string in another case compares with every string as it does itself. */
  lemma {:induction false} FoldsAlike(s: string, s': string, t: string)
    requires AllButForCase(s, s')
    ensures StrCmp(s, t, true) == StrCmp(s', t, true)
    decreases |s|
  {
    hide Lower, ButForCase;
    if s != "" {
      LowerIff(s[0], s'[0]);
      if t != "" {
        assert forall i :: 0 <= i < |s[1..]| ==> s[1..][i] == s[i + 1] && s'[1..][i] == s'[i + 1];
        FoldsAlike(s[1..], s'[1..], t[1..]);
      }
    }
  }

  // ----- lexicographic order -----

  ghost predicate Equal(x: Entry, y: Entry, cs: bool) {
    Cmp(x.key, y.key, cs) == 0 && Cmp(x.val, y.val, cs) == 0
  }

  /** The key is less, or the keys are equal and the value is less. */
  ghost predicate Less(x: Entry, y: Entry, cs: bool) {
    Cmp(x.key, y.key, cs) < 0 || (Cmp(x.key, y.key, cs) == 0 && Cmp(x.val, y.val, cs) < 0)
  }

  /** The first i entries of the two arrays compare equal. */
  ghost predicate AgreeTo(a: Item, b: Item, i: nat, cs: bool)
    requires a.Arr? && b.Arr?
  {
    && i <= |a.entries| && i <= |b.entries|
    && forall j :: 0 <= j < i ==> Equal(a.entries[j], b.entries[j], cs)
  }

  /** a comes before b: after a common part a ends first, or its next entry is less. */
  ghost predicate Before(a: Item, b: Item, i: nat, cs: bool)
    requires a.Arr? && b.Arr?
  {
    && AgreeTo(a, b, i, cs) && i < |b.entries|
    && (i < |a.entries| ==> Less(a.entries[i], b.entries[i], cs))
  }

  /** The loop over two arrays computes the lexicographic order of their (key, value) sequences. */
  lemma {:induction false} Lexicographic(a: Item, b: Item, cs: bool)
    requires a.Arr? && b.Arr?
    ensures Cmp(a, b, cs) < 0 <==> exists i: nat :: Before(a, b, i, cs)
    ensures Cmp(a, b, cs) == 0 <==> |a.entries| == |b.entries| && AgreeTo(a, b, |a.entries|, cs)
  {
    var d := Difference(a, b, 0, cs);
    CmpArrays(a, b, cs);
    hide Cmp, CmpFrom, CmpEntry, Equal, Less;
    if j: nat :| Before(a, b, j, cs) {
      OneDifference(a, b, j, d, cs);
    }
    if |a.entries| == |b.entries| && AgreeTo(a, b, |a.entries|, cs) {
      NoDifference(a, b, d, cs);
    }
  }

  lemma OneDifference(a: Item, b: Item, j: nat, d: nat, cs: bool)
    requires a.Arr? && b.Arr? && Before(a, b, j, cs) && AgreeTo(a, b, d, cs)
    requires d < |a.entries| && d < |b.entries| ==> !Equal(a.entries[d], b.entries[d], cs)
    ensures j == d
  {}

  lemma NoDifference(a: Item, b: Item, d: nat, cs: bool)
    requires a.Arr? && b.Arr? && |a.entries| == |b.entries| && AgreeTo(a, b, |a.entries|, cs) && d <= |a.entries|
    requires d < |a.entries| && d < |b.entries| ==> !Equal(a.entries[d], b.entries[d], cs)
    ensures d == |a.entries|
  {}

  lemma CmpArrays(a: Item, b: Item, cs: bool)
    requires a.Arr? && b.Arr?
    ensures Cmp(a, b, cs) == CmpFrom(a, b, 0, cs)
  {}

  /** The place where the comparison stops. */
  lemma {:induction false} Difference(a: Item, b: Item, i: nat, cs: bool) returns (d: nat)
    requires a.Arr? && b.Arr? && AgreeTo(a, b, i, cs)
    ensures AgreeTo(a, b, d, cs)
    ensures CmpFrom(a, b, i, cs) < 0 <==> Before(a, b, d, cs)
    ensures CmpFrom(a, b, i, cs) == 0 <==> d == |a.entries| == |b.entries|
    ensures d < |a.entries| && d < |b.entries| ==> !Equal(a.entries[d], b.entries[d], cs)
    decreases |a.entries| - i
  {
    d := i;
    if i < |a.entries| && i < |b.entries| && CmpEntry(a.entries[i], b.entries[i], cs) == 0 {
      d := Difference(a, b, i + 1, cs);
    }
  }
}
