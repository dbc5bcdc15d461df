/** Lock expressions: the recursive-descent parser, the printer, and what they make of each other. */
module Lock {
  import opened Options

  const BUFFER_LEN: nat := 8192

  /** A property test is a leaf here; TRUE_BOOLEXP, the lock that is not there, is the None of Option. */
  datatype Expr =
    | And(left: Expr, right: Expr)
    | Or(left: Expr, right: Expr)
    | Not(inner: Expr)
    | Const(thing: int)
    | Prop(name: string, value: string)

  /** What the parser asks of the rest of the server: which numbers are objects that can be locked to,
      and what a text with a colon means. */
  datatype Env = Env(live: int -> bool, prop: string -> Option<Expr>)

  // ----- scanning -----

  predicate IsSpace(c: char) {
    c == ' ' || '\t' <= c <= '\r'
  }

  function Skip(s: string): (r: string)
    ensures |r| <= |s| && (r != "" ==> !IsSpace(r[0]))
  {
    if s != "" && IsSpace(s[0]) then Skip(s[1..]) else s
  }

  predicate EndsName(c: char) {
    c == '&' || c == '|' || c == ')'
  }

  /** How far an object's name goes. */
  function NameEnd(s: string): (n: nat)
    ensures n <= |s|
  {
    if s == "" || EndsName(s[0]) then 0 else 1 + NameEnd(s[1..])
  }

  /** Without trailing space. */
  function Strip(s: string): string {
    if s != "" && IsSpace(s[|s| - 1]) then Strip(s[..|s| - 1]) else s
  }

  predicate IsDigit(c: char) {
    '0' <= c <= '9'
  }

  /** The value of a series of digits. */
  function Digits(s: string): int {
    if s == "" then 0 else 10 * Digits(s[..|s| - 1]) + (s[|s| - 1] as int - '0' as int)
  }

  predicate AllDigits(s: string) {
    forall i :: 0 <= i < |s| ==> IsDigit(s[i])
  }

  /** number, and atoi where it says yes. */
  function Number(s: string): Option<int> {
    var t := Skip(s);
    var signed := t != "" && (t[0] == '+' || t[0] == '-');
    var d := if signed then t[1..] else t;
    if d == "" || !AllDigits(d) then None
    else Some(if signed && t[0] == '-' then -Digits(d) else Digits(d))
  }

  /** An object's name, as the database loader reads it. */
  function Leaf(env: Env, s: string): Option<Expr> {
    if ':' in s then env.prop(s)
    else if s == "" || s[0] != '#' || Number(s[1..]).None? then None
    else
      var n := Number(s[1..]).value;
      if n < 0 || !env.live(n) then None else Some(Const(n))
  }

  // ----- the parser -----

  datatype Parsed = Parsed(lock: Option<Expr>, rest: string)

  function ParseF(env: Env, s: string): (p: Parsed)
    ensures |p.rest| <= |s|
    decreases |s|, 0
  {
    var t := Skip(s);
    if t != "" && t[0] == '(' then
      var p := ParseE(env, t[1..]);
      var u := Skip(p.rest);
      if p.lock.None? || u == "" then Parsed(None, u)
      else Parsed(if u[0] == ')' then p.lock else None, u[1..])
    else if t != "" && t[0] == '!' then
      var p := ParseF(env, t[1..]);
      Parsed(if p.lock.None? then None else Some(Not(p.lock.value)), p.rest)
    else
      Parsed(Leaf(env, Strip(t[..NameEnd(t)])), t[NameEnd(t)..])
  }

  function ParseT(env: Env, s: string): (p: Parsed)
    ensures |p.rest| <= |s|
    decreases |s|, 1
  {
    var p := ParseF(env, s);
    if p.lock.None? then p
    else
      var t := Skip(p.rest);
      if t != "" && t[0] == '&' then
        var q := ParseT(env, t[1..]);
        Parsed(if q.lock.None? then None else Some(And(p.lock.value, q.lock.value)), q.rest)
      else Parsed(p.lock, t)
  }

  function ParseE(env: Env, s: string): (p: Parsed)
    ensures |p.rest| <= |s|
    decreases |s|, 2
  {
    var p := ParseT(env, s);
    if p.lock.None? then p
    else
      var t := Skip(p.rest);
      if t != "" && t[0] == '|' then
        var q := ParseE(env, t[1..]);
        Parsed(if q.lock.None? then None else Some(Or(p.lock.value, q.lock.value)), q.rest)
      else Parsed(p.lock, t)
  }

  function Parse(env: Env, s: string): Option<Expr> {
    ParseE(env, s).lock
  }

  // ----- texts of the grammar -----

  /** A text with its structure: spaces may stand before a factor, before an operator and before a
      closing bracket. A hole is a place where a factor is missing. */
  datatype FText =
    | Bracket(before: string, inner: EText, after: string)
    | Bang(before: string, factor: FText)
    | Ref(before: string, thing: nat)
    | Hole
  datatype TText = One(factor: FText) | Both(factor: FText, before: string, more: TText)
  datatype EText = Just(term: TText) | Either(term: TText, before: string, more: EText)

  function Decimal(n: nat): string {
    if n < 10 then [(n + '0' as int) as char] else Decimal(n / 10) + [(n % 10 + '0' as int) as char]
  }

  function Signed(n: int): string {
    if n < 0 then "-" + Decimal(-n) else Decimal(n)
  }

  function TextF(f: FText): string {
    match f
    case Bracket(b, e, a) => b + "(" + TextE(e) + a + ")"
    case Bang(b, g) => b + "!" + TextF(g)
    case Ref(b, n) => b + "#" + Decimal(n)
    case Hole => ""
  }

  function TextT(t: TText): string {
    match t
    case One(f) => TextF(f)
    case Both(f, b, more) => TextF(f) + b + "&" + TextT(more)
  }

  function TextE(e: EText): string {
    match e
    case Just(t) => TextT(t)
    case Either(t, b, more) => TextT(t) + b + "|" + TextE(more)
  }

  /** The lock a text stands for: operators associate to the right, and & binds tighter than |. */
  function TreeF(f: FText): Expr {
    match f
    case Bracket(_, e, _) => TreeE(e)
    case Bang(_, g) => Not(TreeF(g))
    case Ref(_, n) => Const(n)
    case Hole => Const(-1)
  }

  function TreeT(t: TText): Expr {
    match t
    case One(f) => TreeF(f)
    case Both(f, _, more) => And(TreeF(f), TreeT(more))
  }

  function TreeE(e: EText): Expr {
    match e
    case Just(t) => TreeT(t)
    case Either(t, _, more) => Or(TreeT(t), TreeE(more))
  }

  ghost predicate Blank(s: string) {
    forall i :: 0 <= i < |s| ==> IsSpace(s[i])
  }

  /** The spaces are spaces, the objects exist, and nothing is missing. */
  ghost predicate GoodF(env: Env, f: FText) {
    match f
    case Bracket(b, e, a) => Blank(b) && GoodE(env, e) && Blank(a)
    case Bang(b, g) => Blank(b) && GoodF(env, g)
    case Ref(b, n) => Blank(b) && env.live(n)
    case Hole => false
  }

  ghost predicate GoodT(env: Env, t: TText) {
    match t
    case One(f) => GoodF(env, f)
    case Both(f, b, more) => GoodF(env, f) && Blank(b) && GoodT(env, more)
  }

  ghost predicate GoodE(env: Env, e: EText) {
    match e
    case Just(t) => GoodT(env, t)
    case Either(t, b, more) => GoodT(env, t) && Blank(b) && GoodE(env, more)
  }

  // ----- scanning lemmas -----

  lemma {:induction false} SkipBlank(b: string, s: string)
    requires Blank(b)
    ensures Skip(b + s) == Skip(s)
    decreases |b|
  {
    if b == "" {
      assert b + s == s;
    } else {
      assert (b + s)[1..] == b[1..] + s;
      SkipBlank(b[1..], s);
    }
  }

  lemma SkipStays(s: string)
    requires s == "" || !IsSpace(s[0])
    ensures Skip(s) == s
  {}

  lemma {:induction false} SkipIs(s: string) returns (b: string)
    ensures Blank(b) && s == b + Skip(s)
    decreases |s|
  {
    if s != "" && IsSpace(s[0]) {
      var c := SkipIs(s[1..]);
      b := [s[0]] + c;
      hide Skip;
      assert s == [s[0]] + s[1..];
    } else {
      b := "";
    }
  }

  lemma SkipTwice(s: string)
    ensures Skip(Skip(s)) == Skip(s)
  {
    SkipStays(Skip(s));
  }

  /** A name goes up to the first character that ends it. */
  lemma {:induction false} NameIs(s: string, t: string)
    requires forall i :: 0 <= i < |s| ==> !EndsName(s[i])
    requires t == "" || EndsName(t[0])
    ensures NameEnd(s + t) == |s|
    decreases |s|
  {
    if s == "" {
      assert s + t == t;
    } else {
      assert (s + t)[1..] == s[1..] + t;
      NameIs(s[1..], t);
    }
  }

  lemma {:induction false} StripBlank(s: string, b: string)
    requires Blank(b) && s != "" && !IsSpace(s[|s| - 1])
    ensures Strip(s + b) == s
    decreases |b|
  {
    if b == "" {
      assert s + b == s;
    } else {
      assert (s + b)[..|s + b| - 1] == s + b[..|b| - 1];
      StripBlank(s, b[..|b| - 1]);
    }
  }

  lemma {:induction false} DecimalDigits(n: nat)
    ensures Decimal(n) != "" && (forall i :: 0 <= i < |Decimal(n)| ==> IsDigit(Decimal(n)[i]))
    ensures Digits(Decimal(n)) == n
    decreases n
  {
    var d := Decimal(n);
    if n < 10 {
      assert d[..|d| - 1] == "";
      assert Digits("") == 0;
    } else {
      DecimalDigits(n / 10);
      assert d[..|d| - 1] == Decimal(n / 10);
    }
  }

  lemma NumberDecimal(n: nat)
    ensures Number(Decimal(n)) == Some(n)
  {
    hide Decimal, Digits;
    DecimalDigits(n);
    SkipStays(Decimal(n));
  }

  lemma LeafRef(env: Env, n: nat)
    requires env.live(n)
    ensures Leaf(env, "#" + Decimal(n)) == Some(Const(n))
  {
    hide Number, Decimal, Digits;
    var s := "#" + Decimal(n);
    DecimalDigits(n);
    NumberDecimal(n);
    assert s[1..] == Decimal(n);
    assert ':' !in s by {
      forall i | 0 <= i < |s| ensures s[i] != ':' {
        if i > 0 {
          assert IsDigit(Decimal(n)[i - 1]);
        }
      }
    }
  }

  // ----- the parser reads every text of the grammar -----

  /** What may follow a factor, a term, an expression. */
  ghost predicate AfterF(r: string) {
    Skip(r) == "" || EndsName(Skip(r)[0])
  }

  ghost predicate AfterT(r: string) {
    Skip(r) == "" || Skip(r)[0] == '|' || Skip(r)[0] == ')'
  }

  ghost predicate AfterE(r: string) {
    Skip(r) == "" || Skip(r)[0] == ')'
  }

  ghost predicate Reads(p: Parsed, l: Expr, r: string) {
    p.lock == Some(l) && Skip(p.rest) == Skip(r)
  }

  lemma {:induction false} FParses(env: Env, f: FText, r: string)
    requires GoodF(env, f) && AfterF(r)
    ensures Reads(ParseF(env, TextF(f) + r), TreeF(f), r)
    decreases f
  {
    hide ParseE, ParseT, Leaf, Decimal, Strip, NameEnd;
    match f
    case Bracket(b, e, a) =>
      var r' := a + ")" + r;
      var x := "(" + (TextE(e) + r');
      assert TextF(f) + r == b + x by { BracketText(b, e, a, r); }
      SkipBlank(b, x);
      SkipStays(x);
      assert x[1..] == TextE(e) + r';
      assert r' == a + (")" + r);
      SkipBlank(a, ")" + r);
      SkipStays(")" + r);
      EParses(env, e, r');
      assert (")" + r)[1..] == r;
    case Bang(b, g) =>
      var x := "!" + (TextF(g) + r);
      assert TextF(f) + r == b + x by { BangText(b, g, r); }
      SkipBlank(b, x);
      SkipStays(x);
      assert x[1..] == TextF(g) + r;
      FParses(env, g, r);
    case Ref(b, n) =>
      RefParses(env, b, n, r);
  }

  lemma BracketText(b: string, e: EText, a: string, r: string)
    ensures TextF(Bracket(b, e, a)) + r == b + ("(" + (TextE(e) + (a + ")" + r)))
  {
    hide TextE;
  }

  lemma BangText(b: string, g: FText, r: string)
    ensures TextF(Bang(b, g)) + r == b + ("!" + (TextF(g) + r))
  {}

  lemma NameParses(env: Env, s: string, x: string)
    requires Skip(s) == x && x != "" && x[0] != '(' && x[0] != '!'
    ensures ParseF(env, s) == Parsed(Leaf(env, Strip(x[..NameEnd(x)])), x[NameEnd(x)..])
  {
    hide Leaf, Strip, NameEnd, Skip;
  }

  lemma RefText(b: string, n: nat, gap: string, tail: string)
    ensures TextF(Ref(b, n)) + (gap + tail) == b + (("#" + Decimal(n) + gap) + tail)
  {
    hide Decimal;
  }

  /** The name in a text that begins with a number: the number, with the space after it stripped. */
  lemma RefName(n: nat, gap: string, tail: string)
    requires Blank(gap) && (tail == "" || EndsName(tail[0]))
    ensures
      var name := "#" + Decimal(n) + gap;
      && NameEnd(name + tail) == |name| && Strip(name) == "#" + Decimal(n)
      && (name + tail)[..|name|] == name && (name + tail)[|name|..] == tail
  {
    hide Decimal, Strip, NameEnd;
    DecimalDigits(n);
    var d := "#" + Decimal(n);
    assert d[|d| - 1] == Decimal(n)[|Decimal(n)| - 1];
    StripBlank(d, gap);
    NameIs(d + gap, tail);
  }

  lemma RefParses(env: Env, b: string, n: nat, r: string)
    requires Blank(b) && env.live(n) && AfterF(r)
    ensures Reads(ParseF(env, TextF(Ref(b, n)) + r), Const(n), r)
  {
    hide Leaf, Decimal, Strip, NameEnd, Number, ParseF, TextF, Skip, Blank;
    var gap := SkipIs(r);
    var tail := Skip(r);
    var name := "#" + Decimal(n) + gap;
    var x := name + tail;
    RefText(b, n, gap, tail);
    SkipBlank(b, x);
    SkipStays(x);
    RefName(n, gap, tail);
    NameParses(env, b + x, x);
    LeafRef(env, n);
    SkipTwice(r);
  }

  lemma {:induction false} TParses(env: Env, t: TText, r: string)
    requires GoodT(env, t) && AfterT(r)
    ensures Reads(ParseT(env, TextT(t) + r), TreeT(t), r)
    decreases t
  {
    hide ParseF, ParseE, TextF, TreeF;
    match t
    case One(f) =>
      FParses(env, f, r);
      SkipTwice(r);
    case Both(f, b, more) =>
      var x := "&" + (TextT(more) + r);
      assert TextT(t) + r == TextF(f) + (b + x);
      SkipBlank(b, x);
      SkipStays(x);
      FParses(env, f, b + x);
      assert x[1..] == TextT(more) + r;
      TParses(env, more, r);
  }

  lemma {:induction false} EParses(env: Env, e: EText, r: string)
    requires GoodE(env, e) && AfterE(r)
    ensures Reads(ParseE(env, TextE(e) + r), TreeE(e), r)
    decreases e
  {
    hide ParseF, ParseT, TextT, TreeT;
    match e
    case Just(t) =>
      TParses(env, t, r);
      SkipTwice(r);
    case Either(t, b, more) =>
      var x := "|" + (TextE(more) + r);
      assert TextE(e) + r == TextT(t) + (b + x);
      SkipBlank(b, x);
      SkipStays(x);
      TParses(env, t, b + x);
      assert x[1..] == TextE(more) + r;
      EParses(env, more, r);
  }

  /** Every lock written in the grammar, with any spaces, is parsed to the lock it stands for. */
  lemma ParsesText(env: Env, e: EText, trailing: string)
    requires GoodE(env, e) && Blank(trailing)
    ensures Parse(env, TextE(e) + trailing) == Some(TreeE(e))
  {
    hide ParseE, TextE;
    SkipBlank(trailing, "");
    assert trailing + "" == trailing;
    EParses(env, e, trailing);
  }

  // ----- names and properties -----

  /** A name the parser takes as it stands: nothing in it ends a name, no blank is at its ends, and it does not
      begin a bracket or a negation. */
  ghost predicate PlainName(s: string) {
    && s != "" && s[0] != '(' && s[0] != '!' && !IsSpace(s[0]) && !IsSpace(s[|s| - 1])
    && forall i :: 0 <= i < |s| ==> s[i] != '&' && s[i] != '|' && s[i] != ')'
  }

  lemma {:induction false} NameWhole(s: string)
    requires forall i :: 0 <= i < |s| ==> s[i] != '&' && s[i] != '|' && s[i] != ')'
    ensures NameEnd(s) == |s|
    decreases |s|
  {
    if s != "" {
      NameWhole(s[1..]);
    }
  }

  /** Such a name is a property's test when there is a colon in it, and otherwise names an object. */
  lemma {:induction false} NamesParse(env: Env, s: string)
    requires PlainName(s)
    ensures ':' in s ==> Parse(env, s) == env.prop(s)
    ensures ':' !in s && s[0] != '#' ==> Parse(env, s) == None
    ensures ':' !in s && s[0] == '#' ==>
              Parse(env, s) == (match Number(s[1..])
                                case None => None
                                case Some(n) => if n >= 0 && env.live(n) then Some(Const(n)) else None)
  {
    hide Number;
    NameWhole(s);
    assert s[..|s|] == s && s[|s|..] == "";
    assert Skip("") == "";
    var p := ParseF(env, s);
    assert p == Parsed(Leaf(env, s), "");
    assert ParseT(env, s) == p;
    assert ParseE(env, s) == p;
  }

  // ----- the parser refuses a text with a hole -----

  /** The text is good up to a hole. */
  ghost predicate TornF(env: Env, f: FText) {
    match f
    case Bracket(b, e, a) => Blank(b) && TornE(env, e) && Blank(a)
    case Bang(b, g) => Blank(b) && TornF(env, g)
    case Ref(_, _) => false
    case Hole => true
  }

  ghost predicate TornT(env: Env, t: TText) {
    match t
    case One(f) => TornF(env, f)
    case Both(f, b, more) => Blank(b) && (TornF(env, f) || (GoodF(env, f) && TornT(env, more)))
  }

  ghost predicate TornE(env: Env, e: EText) {
    match e
    case Just(t) => TornT(env, t)
    case Either(t, b, more) => Blank(b) && (TornT(env, t) || (GoodT(env, t) && TornE(env, more)))
  }

  lemma {:induction false} FFails(env: Env, f: FText, r: string)
    requires TornF(env, f) && AfterF(r)
    ensures ParseF(env, TextF(f) + r).lock.None?
    decreases f
  {
    hide ParseE, ParseT, Leaf, Decimal, Strip, NameEnd;
    match f
    case Bracket(b, e, a) =>
      var r' := a + ")" + r;
      var x := "(" + (TextE(e) + r');
      assert TextF(f) + r == b + x by { BracketText(b, e, a, r); }
      SkipBlank(b, x);
      SkipStays(x);
      assert x[1..] == TextE(e) + r';
      assert r' == a + (")" + r);
      SkipBlank(a, ")" + r);
      SkipStays(")" + r);
      EFails(env, e, r');
    case Bang(b, g) =>
      var x := "!" + (TextF(g) + r);
      assert TextF(f) + r == b + x by { BangText(b, g, r); }
      SkipBlank(b, x);
      SkipStays(x);
      assert x[1..] == TextF(g) + r;
      FFails(env, g, r);
    case Hole =>
      assert "" + r == r;
      NoName(env, r);
  }

  /** Where a factor should be, and its end stands instead, there is no name. */
  lemma NoName(env: Env, r: string)
    requires AfterF(r)
    ensures ParseF(env, r).lock.None?
  {
    var t := Skip(r);
    assert NameEnd(t) == 0 && t[..0] == "" && Strip("") == "";
    assert Leaf(env, "").None?;
  }

  lemma {:induction false} TFails(env: Env, t: TText, r: string)
    requires TornT(env, t) && AfterT(r)
    ensures ParseT(env, TextT(t) + r).lock.None?
    decreases t
  {
    hide ParseF, ParseE, TextF, TreeF;
    match t
    case One(f) =>
      FFails(env, f, r);
    case Both(f, b, more) =>
      var x := "&" + (TextT(more) + r);
      assert TextT(t) + r == TextF(f) + (b + x);
      SkipBlank(b, x);
      SkipStays(x);
      if TornF(env, f) {
        FFails(env, f, b + x);
      } else {
        FParses(env, f, b + x);
        assert x[1..] == TextT(more) + r;
        TFails(env, more, r);
      }
  }

  lemma {:induction false} EFails(env: Env, e: EText, r: string)
    requires TornE(env, e) && AfterE(r)
    ensures ParseE(env, TextE(e) + r).lock.None?
    decreases e
  {
    hide ParseF, ParseT, TextT, TreeT;
    match e
    case Just(t) =>
      TFails(env, t, r);
    case Either(t, b, more) =>
      var x := "|" + (TextE(more) + r);
      assert TextE(e) + r == TextT(t) + (b + x);
      SkipBlank(b, x);
      SkipStays(x);
      if TornT(env, t) {
        TFails(env, t, b + x);
      } else {
        TParses(env, t, b + x);
        assert x[1..] == TextE(more) + r;
        EFails(env, more, r);
      }
  }

  /** A text that is good up to a hole is no lock. */
  lemma RefusesTorn(env: Env, e: EText)
    requires TornE(env, e)
    ensures Parse(env, TextE(e)) == None
  {
    hide ParseE, TextE, TornE;
    assert TextE(e) + "" == TextE(e);
    EFails(env, e, "");
  }

  // ----- the printer -----

  datatype Outer = InNone | InNot | InAnd | InOr

  /** Operators that bind less tightly than what is around them stand in brackets. */
  function Opens(l: Expr, outer: Outer): nat {
    if (l.And? && outer == InNot) || (l.Or? && (outer == InNot || outer == InAnd)) then 1 else 0
  }

  function Enclosed(s: string, l: Expr, outer: Outer): string {
    if Opens(l, outer) == 1 then "(" + s + ")" else s
  }

  function Cut(s: string, n: nat): string {
    if |s| <= n then s else s[..n]
  }

  /** unparse_boolexp1 without full names, when pos characters are already in the buffer: past the middle of
      the buffer it prints nothing. A property is printed as its name, a colon and its value. */
  function Print(l: Expr, outer: Outer, pos: nat): string
    decreases l
  {
    if pos > BUFFER_LEN / 2 then ""
    else
      match l
      case And(a, b) =>
        var s := Print(a, InAnd, pos + Opens(l, outer));
        Enclosed(s + "&" + Print(b, InAnd, pos + Opens(l, outer) + |s| + 1), l, outer)
      case Or(a, b) =>
        var s := Print(a, InOr, pos + Opens(l, outer));
        Enclosed(s + "|" + Print(b, InOr, pos + Opens(l, outer) + |s| + 1), l, outer)
      case Not(a) => "!" + Print(a, InNot, pos + 1)
      case Const(n) => "#" + Signed(n)
      case Prop(name, value) => Cut(name + ":" + value, BUFFER_LEN - 1 - pos)
  }

  /** The whole text of a lock, as a buffer without an end would hold it. */
  function Unparse(l: Expr, outer: Outer): string {
    match l
    case And(a, b) => Enclosed(Unparse(a, InAnd) + "&" + Unparse(b, InAnd), l, outer)
    case Or(a, b) => Enclosed(Unparse(a, InOr) + "|" + Unparse(b, InOr), l, outer)
    case Not(a) => "!" + Unparse(a, InNot)
    case Const(n) => "#" + Signed(n)
    case Prop(name, value) => name + ":" + value
  }

  /** Where in the whole text the last leaf begins. */
  function LastAt(l: Expr, outer: Outer): nat {
    match l
    case And(a, b) => Opens(l, outer) + |Unparse(a, InAnd)| + 1 + LastAt(b, InAnd)
    case Or(a, b) => Opens(l, outer) + |Unparse(a, InOr)| + 1 + LastAt(b, InOr)
    case Not(a) => 1 + LastAt(a, InNot)
    case _ => 0
  }

  /** The last leaf begins in the first half of the buffer, or just behind it. */
  predicate Fits(l: Expr) {
    LastAt(l, InNone) <= BUFFER_LEN / 2
  }

  lemma {:induction false} LastInside(l: Expr, outer: Outer)
    ensures LastAt(l, outer) <= |Unparse(l, outer)|
    decreases l
  {
    match l
    case And(a, b) => LastInside(b, InAnd);
    case Or(a, b) => LastInside(b, InOr);
    case Not(a) => LastInside(a, InNot);
    case _ =>
  }

  /** A lock that fits is printed whole. */
  lemma {:induction false} PrintsWhole(env: Env, l: Expr, outer: Outer, pos: nat)
    requires OverObjects(env, l) && pos + LastAt(l, outer) <= BUFFER_LEN / 2
    ensures Print(l, outer, pos) == Unparse(l, outer)
    decreases l
  {
    hide Decimal, Signed, Enclosed;
    match l
    case And(a, b) =>
      LastInside(a, InAnd);
      PrintsWhole(env, a, InAnd, pos + Opens(l, outer));
      PrintsWhole(env, b, InAnd, pos + Opens(l, outer) + |Unparse(a, InAnd)| + 1);
    case Or(a, b) =>
      LastInside(a, InOr);
      PrintsWhole(env, a, InOr, pos + Opens(l, outer));
      PrintsWhole(env, b, InOr, pos + Opens(l, outer) + |Unparse(a, InOr)| + 1);
    case Not(a) =>
      PrintsWhole(env, a, InNot, pos + 1);
    case Const(_) =>
  }

  /** Locks over objects that exist. */
  ghost predicate OverObjects(env: Env, l: Expr) {
    match l
    case And(a, b) => OverObjects(env, a) && OverObjects(env, b)
    case Or(a, b) => OverObjects(env, a) && OverObjects(env, b)
    case Not(a) => OverObjects(env, a)
    case Const(n) => n >= 0 && env.live(n)
    case Prop(_, _) => false
  }

  function JoinT(t: TText, u: TText): TText {
    match t
    case One(f) => Both(f, "", u)
    case Both(f, b, more) => Both(f, b, JoinT(more, u))
  }

  function JoinE(e: EText, u: EText): EText {
    match e
    case Just(t) => Either(t, "", u)
    case Either(t, b, more) => Either(t, b, JoinE(more, u))
  }

  /** The printed text as a text of the grammar: chains of one operator are printed without brackets. */
  function AsF(l: Expr): FText
    decreases l, 0
  {
    match l
    case And(a, b) => Bracket("", Just(JoinT(AsT(a), AsT(b))), "")
    case Or(a, b) => Bracket("", JoinE(AsE(a), AsE(b)), "")
    case Not(a) => Bang("", AsF(a))
    case Const(n) => Ref("", if n < 0 then 0 else n)
    case Prop(_, _) => Ref("", 0)
  }

  function AsT(l: Expr): TText
    decreases l, 1
  {
    if l.And? then JoinT(AsT(l.left), AsT(l.right)) else One(AsF(l))
  }

  function AsE(l: Expr): EText
    decreases l, 2
  {
    if l.Or? then JoinE(AsE(l.left), AsE(l.right)) else Just(AsT(l))
  }

  /** The lock with every chain of one operator associated to the right. */
  function Normal(l: Expr): Expr {
    TreeE(AsE(l))
  }

  lemma {:induction false} JoinTText(t: TText, u: TText)
    ensures TextT(JoinT(t, u)) == TextT(t) + "&" + TextT(u)
  {
    hide TextF;
    match t
    case One(f) =>
      assert TextF(f) + "" == TextF(f);
    case Both(f, b, more) =>
      JoinTText(more, u);
      assert TextF(f) + b + "&" + (TextT(more) + "&" + TextT(u)) == TextF(f) + b + "&" + TextT(more) + "&" + TextT(u);
  }

  lemma {:induction false} JoinEText(e: EText, u: EText)
    ensures TextE(JoinE(e, u)) == TextE(e) + "|" + TextE(u)
  {
    hide TextT;
    match e
    case Just(t) =>
      assert TextT(t) + "" == TextT(t);
    case Either(t, b, more) =>
      JoinEText(more, u);
      assert TextT(t) + b + "|" + (TextE(more) + "|" + TextE(u)) == TextT(t) + b + "|" + TextE(more) + "|" + TextE(u);
  }

  lemma {:induction false} JoinTGood(env: Env, t: TText, u: TText)
    requires GoodT(env, t) && GoodT(env, u)
    ensures GoodT(env, JoinT(t, u))
  {
    hide GoodF;
    if t.Both? {
      JoinTGood(env, t.more, u);
    }
  }

  lemma {:induction false} JoinEGood(env: Env, e: EText, u: EText)
    requires GoodE(env, e) && GoodE(env, u)
    ensures GoodE(env, JoinE(e, u))
  {
    hide GoodT;
    if e.Either? {
      JoinEGood(env, e.more, u);
    }
  }

  /** What the printer prints of l is the text the three levels of the grammar give it. */
  ghost predicate PrintedAs(env: Env, l: Expr) {
    && TextF(AsF(l)) == Unparse(l, InNot) && GoodF(env, AsF(l))
    && TextT(AsT(l)) == Unparse(l, InAnd) && GoodT(env, AsT(l))
    && TextE(AsE(l)) == Unparse(l, InOr) == Unparse(l, InNone) && GoodE(env, AsE(l))
  }

  lemma {:induction false} Prints(env: Env, l: Expr)
    requires OverObjects(env, l)
    ensures PrintedAs(env, l)
  {
    hide Decimal, PrintedAs;
    match l
    case And(a, b) =>
      Prints(env, a);
      Prints(env, b);
      PrintsAnd(env, a, b);
    case Or(a, b) =>
      Prints(env, a);
      Prints(env, b);
      PrintsOr(env, a, b);
    case Not(a) =>
      Prints(env, a);
      PrintsLeaf(env, l);
    case Const(n) =>
      PrintsLeaf(env, l);
  }

  /** A factor standing alone as a term or an expression, and a term as an expression. */
  lemma {:induction false} Alone(env: Env, f: FText, t: TText)
    ensures TextT(One(f)) == TextF(f) && TextE(Just(One(f))) == TextF(f) && TextE(Just(t)) == TextT(t)
    ensures GoodT(env, One(f)) == GoodF(env, f) && GoodE(env, Just(One(f))) == GoodF(env, f)
    ensures GoodE(env, Just(t)) == GoodT(env, t)
  {}

  lemma {:induction false} BracketGood(env: Env, e: EText)
    ensures GoodF(env, Bracket("", e, "")) == GoodE(env, e)
  {}

  lemma {:induction false} PrintsLeaf(env: Env, l: Expr)
    requires OverObjects(env, l) && (l.Const? || (l.Not? && PrintedAs(env, l.inner)))
    ensures PrintedAs(env, l)
  {
    hide Decimal;
    Alone(env, AsF(l), One(AsF(l)));
    assert TextF(AsF(l)) == Unparse(l, InNot) && GoodF(env, AsF(l));
    assert AsT(l) == One(AsF(l)) && AsE(l) == Just(One(AsF(l)));
  }

  lemma {:induction false} PrintsAnd(env: Env, a: Expr, b: Expr)
    requires PrintedAs(env, a) && PrintedAs(env, b)
    ensures PrintedAs(env, And(a, b))
  {
    hide Decimal, TextE, TextT, GoodT, GoodE, TextF, GoodF;
    var l, t := And(a, b), JoinT(AsT(a), AsT(b));
    assert AsT(l) == t && AsE(l) == Just(t) && AsF(l) == Bracket("", Just(t), "");
    JoinTText(AsT(a), AsT(b));
    JoinTGood(env, AsT(a), AsT(b));
    BracketPrints(Just(t));
    BracketGood(env, Just(t));
    Alone(env, AsF(l), t);
  }

  lemma {:induction false} PrintsOr(env: Env, a: Expr, b: Expr)
    requires PrintedAs(env, a) && PrintedAs(env, b)
    ensures PrintedAs(env, Or(a, b))
  {
    hide Decimal, TextE, TextT, GoodT, GoodE, TextF, GoodF;
    var l, e := Or(a, b), JoinE(AsE(a), AsE(b));
    assert AsE(l) == e && AsF(l) == Bracket("", e, "") && AsT(l) == One(AsF(l));
    JoinEText(AsE(a), AsE(b));
    JoinEGood(env, AsE(a), AsE(b));
    BracketPrints(e);
    BracketGood(env, e);
    Alone(env, AsF(l), AsT(l));
  }

  lemma BracketPrints(e: EText)
    ensures TextF(Bracket("", e, "")) == "(" + TextE(e) + ")"
  {
    hide TextE;
    assert "" + "(" + TextE(e) + "" + ")" == "(" + TextE(e) + ")";
  }

  // ----- what a lock that does not fit leaves in the buffer -----

  /** The printed text as a text of the grammar, with a hole for every leaf that is left out. */
  function PutF(l: Expr, pos: nat): FText
    decreases l, 0
  {
    if pos > BUFFER_LEN / 2 then Hole
    else
      match l
      case And(a, b) =>
        var t := PutT(a, pos + 1);
        Bracket("", Just(JoinT(t, PutT(b, pos + 1 + |TextT(t)| + 1))), "")
      case Or(a, b) =>
        var e := PutE(a, pos + 1);
        Bracket("", JoinE(e, PutE(b, pos + 1 + |TextE(e)| + 1)), "")
      case Not(a) => Bang("", PutF(a, pos + 1))
      case Const(n) => Ref("", if n < 0 then 0 else n)
      case Prop(_, _) => Ref("", 0)
  }

  function PutT(l: Expr, pos: nat): TText
    decreases l, 1
  {
    if l.And? && pos <= BUFFER_LEN / 2 then
      var t := PutT(l.left, pos);
      JoinT(t, PutT(l.right, pos + |TextT(t)| + 1))
    else One(PutF(l, pos))
  }

  function PutE(l: Expr, pos: nat): EText
    decreases l, 2
  {
    if l.Or? && pos <= BUFFER_LEN / 2 then
      var e := PutE(l.left, pos);
      JoinE(e, PutE(l.right, pos + |TextE(e)| + 1))
    else Just(PutT(l, pos))
  }

  ghost predicate PutFAs(env: Env, l: Expr, pos: nat) {
    && TextF(PutF(l, pos)) == Print(l, InNot, pos)
    && (if pos + LastAt(l, InNot) <= BUFFER_LEN / 2 then GoodF(env, PutF(l, pos)) else TornF(env, PutF(l, pos)))
  }

  ghost predicate PutTAs(env: Env, l: Expr, pos: nat) {
    && TextT(PutT(l, pos)) == Print(l, InAnd, pos)
    && (if pos + LastAt(l, InAnd) <= BUFFER_LEN / 2 then GoodT(env, PutT(l, pos)) else TornT(env, PutT(l, pos)))
  }

  ghost predicate PutEAs(env: Env, l: Expr, pos: nat) {
    && TextE(PutE(l, pos)) == Print(l, InOr, pos) == Print(l, InNone, pos)
    && (if pos + LastAt(l, InOr) <= BUFFER_LEN / 2 then GoodE(env, PutE(l, pos)) else TornE(env, PutE(l, pos)))
  }

  lemma {:induction false} JoinTTorn(env: Env, t: TText, u: TText)
    requires TornT(env, t) || (GoodT(env, t) && TornT(env, u))
    ensures TornT(env, JoinT(t, u))
  {
    hide TornF, GoodF;
    if t.Both? && !TornF(env, t.factor) {
      JoinTTorn(env, t.more, u);
    }
  }

  lemma {:induction false} JoinETorn(env: Env, e: EText, u: EText)
    requires TornE(env, e) || (GoodE(env, e) && TornE(env, u))
    ensures TornE(env, JoinE(e, u))
  {
    hide TornT, GoodT;
    if e.Either? && !TornT(env, e.term) {
      JoinETorn(env, e.more, u);
    }
  }

  /** The text is torn exactly when the lock does not fit. */
  lemma {:induction false} Puts(env: Env, l: Expr, pos: nat)
    requires OverObjects(env, l)
    ensures PutFAs(env, l, pos) && PutTAs(env, l, pos) && PutEAs(env, l, pos)
    decreases l
  {
    hide PutFAs, PutTAs, PutEAs, LastAt, PutT, PutE, TextT, TextE;
    if pos > BUFFER_LEN / 2 {
      PutsHole(env, l, pos);
    } else {
      match l
      case And(a, b) =>
        Puts(env, a, pos);
        Puts(env, a, pos + 1);
        Puts(env, b, pos + |TextT(PutT(a, pos))| + 1);
        Puts(env, b, pos + 1 + |TextT(PutT(a, pos + 1))| + 1);
        PutsAnd(env, a, b, pos);
      case Or(a, b) =>
        Puts(env, a, pos);
        Puts(env, a, pos + 1);
        Puts(env, b, pos + |TextE(PutE(a, pos))| + 1);
        Puts(env, b, pos + 1 + |TextE(PutE(a, pos + 1))| + 1);
        PutsOr(env, a, b, pos);
      case Not(a) =>
        Puts(env, a, pos + 1);
        PutsLeaf(env, l, pos);
      case Const(_) =>
        PutsLeaf(env, l, pos);
    }
  }

  lemma {:induction false} PutsHole(env: Env, l: Expr, pos: nat)
    requires pos > BUFFER_LEN / 2
    ensures PutFAs(env, l, pos) && PutTAs(env, l, pos) && PutEAs(env, l, pos)
  {
    hide LastAt;
    assert PutF(l, pos) == Hole && PutT(l, pos) == One(Hole) && PutE(l, pos) == Just(One(Hole));
  }

  /** A factor stands alone as a term and as an expression. */
  lemma {:induction false} PutsLeaf(env: Env, l: Expr, pos: nat)
    requires OverObjects(env, l) && pos <= BUFFER_LEN / 2
    requires l.Const? || (l.Not? && PutFAs(env, l.inner, pos + 1))
    ensures PutFAs(env, l, pos) && PutTAs(env, l, pos) && PutEAs(env, l, pos)
  {
    hide Decimal;
    var f := PutF(l, pos);
    assert PutT(l, pos) == One(f) && PutE(l, pos) == Just(One(f));
    Alone(env, f, One(f));
    AloneTorn(env, f, One(f));
  }

  lemma {:induction false} AloneTorn(env: Env, f: FText, t: TText)
    ensures TornT(env, One(f)) == TornF(env, f) && TornE(env, Just(One(f))) == TornF(env, f)
    ensures TornE(env, Just(t)) == TornT(env, t)
  {}

  lemma {:induction false} BracketTorn(env: Env, e: EText)
    ensures TornF(env, Bracket("", e, "")) == TornE(env, e)
  {}

  function ChainOfT(a: Expr, b: Expr, pos: nat): TText {
    JoinT(PutT(a, pos), PutT(b, pos + |TextT(PutT(a, pos))| + 1))
  }

  /** A chain of & from some place on: its text, and whether it is torn. */
  lemma {:induction false} ChainT(env: Env, a: Expr, b: Expr, pos: nat)
    requires OverObjects(env, a) && PutTAs(env, a, pos) && PutTAs(env, b, pos + |TextT(PutT(a, pos))| + 1)
    ensures
      var u := ChainOfT(a, b, pos);
      && TextT(u) == Print(a, InAnd, pos) + "&" + Print(b, InAnd, pos + |Print(a, InAnd, pos)| + 1)
      && (if pos + |Unparse(a, InAnd)| + 1 + LastAt(b, InAnd) <= BUFFER_LEN / 2 then GoodT(env, u) else TornT(env, u))
  {
    hide Print, PutT, TextT, GoodT, TornT, LastAt, Unparse;
    var t := PutT(a, pos);
    var t' := PutT(b, pos + |TextT(t)| + 1);
    JoinTText(t, t');
    LastInside(a, InAnd);
    if pos + LastAt(a, InAnd) <= BUFFER_LEN / 2 {
      PrintsWhole(env, a, InAnd, pos);
      if GoodT(env, t') {
        JoinTGood(env, t, t');
      }
    }
    if TornT(env, t) || (GoodT(env, t) && TornT(env, t')) {
      JoinTTorn(env, t, t');
    }
  }

  function ChainOfE(a: Expr, b: Expr, pos: nat): EText {
    JoinE(PutE(a, pos), PutE(b, pos + |TextE(PutE(a, pos))| + 1))
  }

  lemma {:induction false} ChainE(env: Env, a: Expr, b: Expr, pos: nat)
    requires OverObjects(env, a) && PutEAs(env, a, pos) && PutEAs(env, b, pos + |TextE(PutE(a, pos))| + 1)
    ensures
      var u := ChainOfE(a, b, pos);
      && TextE(u) == Print(a, InOr, pos) + "|" + Print(b, InOr, pos + |Print(a, InOr, pos)| + 1)
      && (if pos + |Unparse(a, InOr)| + 1 + LastAt(b, InOr) <= BUFFER_LEN / 2 then GoodE(env, u) else TornE(env, u))
  {
    hide Print, PutE, TextE, GoodE, TornE, LastAt, Unparse;
    var e := PutE(a, pos);
    var e' := PutE(b, pos + |TextE(e)| + 1);
    JoinEText(e, e');
    LastInside(a, InOr);
    if pos + LastAt(a, InOr) <= BUFFER_LEN / 2 {
      PrintsWhole(env, a, InOr, pos);
      if GoodE(env, e') {
        JoinEGood(env, e, e');
      }
    }
    if TornE(env, e) || (GoodE(env, e) && TornE(env, e')) {
      JoinETorn(env, e, e');
    }
  }

  lemma {:induction false} PutsAnd(env: Env, a: Expr, b: Expr, pos: nat)
    requires OverObjects(env, a) && pos <= BUFFER_LEN / 2
    requires PutTAs(env, a, pos) && PutTAs(env, b, pos + |TextT(PutT(a, pos))| + 1)
    requires PutTAs(env, a, pos + 1) && PutTAs(env, b, pos + 1 + |TextT(PutT(a, pos + 1))| + 1)
    ensures
      var l := And(a, b);
      PutFAs(env, l, pos) && PutTAs(env, l, pos) && PutEAs(env, l, pos)
  {
    hide *;
    var l := And(a, b);
    ChainT(env, a, b, pos);
    ChainT(env, a, b, pos + 1);
    AndPut(a, b, pos);
    AndPrint(a, b, pos);
    var t, u := PutT(l, pos), ChainOfT(a, b, pos + 1);
    Alone(env, PutF(l, pos), t);
    AloneTorn(env, PutF(l, pos), t);
    Alone(env, PutF(l, pos), u);
    AloneTorn(env, PutF(l, pos), u);
    BracketPrints(Just(u));
    BracketGood(env, Just(u));
    BracketTorn(env, Just(u));
    MeetsF(env, l, pos);
    MeetsT(env, l, pos);
    MeetsE(env, l, pos);
  }

  lemma {:induction false} AndPut(a: Expr, b: Expr, pos: nat)
    requires pos <= BUFFER_LEN / 2
    ensures
      var l := And(a, b);
      && PutT(l, pos) == ChainOfT(a, b, pos) && PutE(l, pos) == Just(ChainOfT(a, b, pos))
      && PutF(l, pos) == Bracket("", Just(ChainOfT(a, b, pos + 1)), "")
  {}

  lemma {:induction false} PrintStep(l: Expr, outer: Outer, pos: nat)
    requires pos <= BUFFER_LEN / 2 && (l.And? || l.Or?)
    ensures
      var inner, op, at := if l.And? then InAnd else InOr, if l.And? then "&" else "|", pos + Opens(l, outer);
      var s := Print(l.left, inner, at);
      Print(l, outer, pos) == Enclosed(s + op + Print(l.right, inner, at + |s| + 1), l, outer)
    ensures
      var inner := if l.And? then InAnd else InOr;
      LastAt(l, outer) == Opens(l, outer) + |Unparse(l.left, inner)| + 1 + LastAt(l.right, inner)
  {
    hide Unparse;
  }

  lemma {:induction false} AndPrint(a: Expr, b: Expr, pos: nat)
    requires pos <= BUFFER_LEN / 2
    ensures
      var l, s, s1 := And(a, b), Print(a, InAnd, pos), Print(a, InAnd, pos + 1);
      && Print(l, InAnd, pos) == Print(l, InOr, pos) == Print(l, InNone, pos) == s + "&" + Print(b, InAnd, pos + |s| + 1)
      && Print(l, InNot, pos) == "(" + (s1 + "&" + Print(b, InAnd, pos + 1 + |s1| + 1)) + ")"
      && LastAt(l, InAnd) == LastAt(l, InOr) == |Unparse(a, InAnd)| + 1 + LastAt(b, InAnd)
      && LastAt(l, InNot) == 1 + |Unparse(a, InAnd)| + 1 + LastAt(b, InAnd)
  {
    hide Print, LastAt, Unparse;
    var l := And(a, b);
    PrintStep(l, InNot, pos);
    PrintStep(l, InAnd, pos);
    PrintStep(l, InOr, pos);
    PrintStep(l, InNone, pos);
  }

  lemma {:induction false} MeetsF(env: Env, l: Expr, pos: nat)
    requires TextF(PutF(l, pos)) == Print(l, InNot, pos)
    requires if pos + LastAt(l, InNot) <= BUFFER_LEN / 2 then GoodF(env, PutF(l, pos)) else TornF(env, PutF(l, pos))
    ensures PutFAs(env, l, pos)
  {}

  lemma {:induction false} MeetsT(env: Env, l: Expr, pos: nat)
    requires TextT(PutT(l, pos)) == Print(l, InAnd, pos)
    requires if pos + LastAt(l, InAnd) <= BUFFER_LEN / 2 then GoodT(env, PutT(l, pos)) else TornT(env, PutT(l, pos))
    ensures PutTAs(env, l, pos)
  {}

  lemma {:induction false} PutsOr(env: Env, a: Expr, b: Expr, pos: nat)
    requires OverObjects(env, a) && pos <= BUFFER_LEN / 2
    requires PutEAs(env, a, pos) && PutEAs(env, b, pos + |TextE(PutE(a, pos))| + 1)
    requires PutEAs(env, a, pos + 1) && PutEAs(env, b, pos + 1 + |TextE(PutE(a, pos + 1))| + 1)
    ensures
      var l := Or(a, b);
      PutFAs(env, l, pos) && PutTAs(env, l, pos) && PutEAs(env, l, pos)
  {
    hide *;
    var l := Or(a, b);
    ChainE(env, a, b, pos);
    ChainE(env, a, b, pos + 1);
    OrPut(a, b, pos);
    OrPrint(a, b, pos);
    var u := ChainOfE(a, b, pos + 1);
    var f := PutF(l, pos);
    Alone(env, f, One(f));
    AloneTorn(env, f, One(f));
    BracketPrints(u);
    BracketGood(env, u);
    BracketTorn(env, u);
    MeetsF(env, l, pos);
    MeetsT(env, l, pos);
    MeetsE(env, l, pos);
  }

  lemma {:induction false} OrPut(a: Expr, b: Expr, pos: nat)
    requires pos <= BUFFER_LEN / 2
    ensures
      var l := Or(a, b);
      && PutE(l, pos) == ChainOfE(a, b, pos) && PutT(l, pos) == One(PutF(l, pos))
      && PutF(l, pos) == Bracket("", ChainOfE(a, b, pos + 1), "")
  {}

  lemma {:induction false} OrPrint(a: Expr, b: Expr, pos: nat)
    requires pos <= BUFFER_LEN / 2
    ensures
      var l, s, s1 := Or(a, b), Print(a, InOr, pos), Print(a, InOr, pos + 1);
      && Print(l, InOr, pos) == Print(l, InNone, pos) == s + "|" + Print(b, InOr, pos + |s| + 1)
      && Print(l, InNot, pos) == Print(l, InAnd, pos) == "(" + (s1 + "|" + Print(b, InOr, pos + 1 + |s1| + 1)) + ")"
      && LastAt(l, InOr) == |Unparse(a, InOr)| + 1 + LastAt(b, InOr)
      && LastAt(l, InNot) == LastAt(l, InAnd) == 1 + |Unparse(a, InOr)| + 1 + LastAt(b, InOr)
  {
    hide Print, LastAt, Unparse;
    var l := Or(a, b);
    PrintStep(l, InNot, pos);
    PrintStep(l, InAnd, pos);
    PrintStep(l, InOr, pos);
    PrintStep(l, InNone, pos);
  }

  lemma {:induction false} MeetsE(env: Env, l: Expr, pos: nat)
    requires TextE(PutE(l, pos)) == Print(l, InOr, pos) == Print(l, InNone, pos)
    requires if pos + LastAt(l, InOr) <= BUFFER_LEN / 2 then GoodE(env, PutE(l, pos)) else TornE(env, PutE(l, pos))
    ensures PutEAs(env, l, pos)
  {}

  // ----- every lock can be written -----

  /** A text with brackets where the grammar needs them. */
  function WriteF(l: Expr): FText
    decreases l, 0
  {
    match l
    case And(a, b) => Bracket("", Just(Both(WriteF(a), "", WriteT(b))), "")
    case Or(a, b) => Bracket("", Either(WriteT(a), "", WriteE(b)), "")
    case Not(a) => Bang("", WriteF(a))
    case Const(n) => Ref("", if n < 0 then 0 else n)
    case Prop(_, _) => Ref("", 0)
  }

  function WriteT(l: Expr): TText
    decreases l, 1
  {
    if l.And? then Both(WriteF(l.left), "", WriteT(l.right)) else One(WriteF(l))
  }

  function WriteE(l: Expr): EText
    decreases l, 2
  {
    if l.Or? then Either(WriteT(l.left), "", WriteE(l.right)) else Just(WriteT(l))
  }

  lemma {:induction false} WritesTree(env: Env, l: Expr)
    requires OverObjects(env, l)
    ensures TreeF(WriteF(l)) == l && GoodF(env, WriteF(l))
    ensures TreeT(WriteT(l)) == l && GoodT(env, WriteT(l))
    ensures TreeE(WriteE(l)) == l && GoodE(env, WriteE(l))
  {
    match l
    case And(a, b) =>
      WritesTree(env, a);
      WritesTree(env, b);
      var t := Both(WriteF(a), "", WriteT(b));
      assert TreeT(t) == l && GoodT(env, t);
      assert TreeF(WriteF(l)) == TreeE(Just(t)) && GoodE(env, Just(t));
    case Or(a, b) =>
      WritesTree(env, a);
      WritesTree(env, b);
    case Not(a) =>
      WritesTree(env, a);
    case Const(n) =>
  }

  /** Every lock over objects has a text, and it is parsed back to that lock. */
  lemma RoundTrip(env: Env, l: Expr)
    requires OverObjects(env, l)
    ensures Parse(env, TextE(WriteE(l))) == Some(l)
  {
    hide Parse, TextE, TreeE, WriteE;
    WritesTree(env, l);
    ParsesText(env, WriteE(l), "");
    assert TextE(WriteE(l)) + "" == TextE(WriteE(l));
  }

  // ----- what a lock means -----

  /** eval_boolexp_rec, where holds says what is true of a leaf. */
  function Eval(l: Expr, holds: Expr -> bool): bool {
    match l
    case And(a, b) => Eval(a, holds) && Eval(b, holds)
    case Or(a, b) => Eval(a, holds) || Eval(b, holds)
    case Not(a) => !Eval(a, holds)
    case _ => holds(l)
  }

  /** What a text says of an object: ! is not, & is and, | is or, brackets go first. */
  function SaysF(f: FText, holds: Expr -> bool): bool {
    match f
    case Bracket(_, e, _) => SaysE(e, holds)
    case Bang(_, g) => !SaysF(g, holds)
    case Ref(_, n) => holds(Const(n))
    case Hole => holds(Const(-1))
  }

  function SaysT(t: TText, holds: Expr -> bool): bool {
    match t
    case One(f) => SaysF(f, holds)
    case Both(f, _, more) => SaysF(f, holds) && SaysT(more, holds)
  }

  function SaysE(e: EText, holds: Expr -> bool): bool {
    match e
    case Just(t) => SaysT(t, holds)
    case Either(t, _, more) => SaysT(t, holds) || SaysE(more, holds)
  }

  lemma {:induction false} TreeMeansF(f: FText, holds: Expr -> bool)
    ensures Eval(TreeF(f), holds) == SaysF(f, holds)
    decreases f
  {
    match f
    case Bracket(_, e, _) => TreeMeansE(e, holds);
    case Bang(_, g) => TreeMeansF(g, holds);
    case _ =>
  }

  lemma {:induction false} TreeMeansT(t: TText, holds: Expr -> bool)
    ensures Eval(TreeT(t), holds) == SaysT(t, holds)
    decreases t
  {
    match t
    case One(f) => TreeMeansF(f, holds);
    case Both(f, _, more) =>
      TreeMeansF(f, holds);
      TreeMeansT(more, holds);
  }

  lemma {:induction false} TreeMeansE(e: EText, holds: Expr -> bool)
    ensures Eval(TreeE(e), holds) == SaysE(e, holds)
    decreases e
  {
    match e
    case Just(t) => TreeMeansT(t, holds);
    case Either(t, _, more) =>
      TreeMeansT(t, holds);
      TreeMeansE(more, holds);
  }

  /** A lock lets in exactly those of whom its text says so. */
  lemma {:induction false} TextMeans(env: Env, e: EText, trailing: string, holds: Expr -> bool)
    requires GoodE(env, e) && Blank(trailing)
    ensures Parse(env, TextE(e) + trailing).Some?
    ensures Eval(Parse(env, TextE(e) + trailing).value, holds) == SaysE(e, holds)
  {
    hide Parse, TextE, TreeE, Eval, SaysE, GoodE;
    ParsesText(env, e, trailing);
    TreeMeansE(e, holds);
  }

  lemma ObjectText(env: Env, n: nat)
    requires env.live(n)
    ensures GoodF(env, Ref("", n)) && TextF(Ref("", n)) == "#" + Decimal(n)
  {}

  function OneE(f: FText): EText {
    Just(One(f))
  }

  lemma OneText(env: Env, f: FText)
    requires GoodF(env, f)
    ensures GoodE(env, OneE(f)) && TextE(OneE(f)) == TextF(f) && TreeE(OneE(f)) == TreeF(f)
    ensures GoodT(env, One(f)) && TextT(One(f)) == TextF(f) && TreeT(One(f)) == TreeF(f)
  {
    hide TextF;
  }

  lemma AndText(env: Env, f: FText, g: FText)
    requires GoodF(env, f) && GoodF(env, g)
    ensures
      var e := Just(Both(f, "", One(g)));
      GoodE(env, e) && TextE(e) == TextF(f) + "&" + TextF(g) && TreeE(e) == And(TreeF(f), TreeF(g))
  {
    OneText(env, f);
    OneText(env, g);
    assert Blank("") && TextF(f) + "" == TextF(f);
    var u := Both(f, "", One(g));
    assert GoodT(env, u) && TextT(u) == TextF(f) + "" + "&" + TextF(g) && TreeT(u) == And(TreeF(f), TreeF(g));
    hide TextT, GoodT, TreeT;
  }

  lemma OrText(env: Env, f: FText, g: FText)
    requires GoodF(env, f) && GoodF(env, g)
    ensures
      var e := Either(One(f), "", OneE(g));
      GoodE(env, e) && TextE(e) == TextF(f) + "|" + TextF(g) && TreeE(e) == Or(TreeF(f), TreeF(g))
  {
    OneText(env, f);
    OneText(env, g);
    assert Blank("") && TextF(f) + "" == TextF(f);
    hide TextF, GoodF, TreeF, TextT, GoodT, TreeT;
    var e := Either(One(f), "", OneE(g));
    assert TextE(e) == TextT(One(f)) + "" + "|" + TextE(OneE(g));
  }

  lemma NotText(env: Env, f: FText)
    requires GoodF(env, f)
    ensures
      var e := OneE(Bang("", Bracket("", OneE(f), "")));
      GoodE(env, e) && TextE(e) == "!(" + TextF(f) + ")" && TreeE(e) == Not(TreeF(f))
  {
    assert Blank("");
    OneText(env, f);
    hide TextE, GoodE, TreeE;
    var g := Bang("", Bracket("", OneE(f), ""));
    assert GoodF(env, g) && TextF(g) == "!(" + TextE(OneE(f)) + ")";
    OneText(env, g);
  }

  lemma SampleObjects()
    ensures "#" + Decimal(1) == "#1" && "#" + Decimal(23) == "#23"
    ensures TreeF(Ref("", 1)) == Const(1) && TreeF(Ref("", 23)) == Const(23)
  {
    assert Decimal(2) == "2";
  }

  /** One text for every connective, character by character, and its lock. */
  lemma {:induction false} SampleTexts(env: Env)
    requires env.live(1) && env.live(23)
    ensures Parse(env, "#1&#23") == Some(And(Const(1), Const(23)))
    ensures Parse(env, "#1|#23") == Some(Or(Const(1), Const(23)))
    ensures Parse(env, "!(#1)") == Some(Not(Const(1)))
  {
    hide *;
    var f, g := Ref("", 1), Ref("", 23);
    SampleObjects();
    ObjectText(env, 1);
    ObjectText(env, 23);
    AndText(env, f, g);
    OrText(env, f, g);
    NotText(env, f);
    assert "#1" + "&" + "#23" == "#1&#23" && "#1" + "|" + "#23" == "#1|#23" && "!(" + "#1" + ")" == "!(#1)";
    SampleParsed(env, Just(Both(f, "", One(g))), "#1&#23");
    SampleParsed(env, Either(One(f), "", OneE(g)), "#1|#23");
    SampleParsed(env, OneE(Bang("", Bracket("", OneE(f), ""))), "!(#1)");
  }

  lemma SampleParsed(env: Env, e: EText, s: string)
    requires GoodE(env, e) && TextE(e) == s
    ensures Parse(env, s) == Some(TreeE(e))
  {
    hide Parse, GoodE, TextE, TreeE;
    ParsesText(env, e, "");
    assert TextE(e) + "" == TextE(e);
  }

  lemma {:induction false} JoinTMeans(t: TText, u: TText, holds: Expr -> bool)
    ensures Eval(TreeT(JoinT(t, u)), holds) == (Eval(TreeT(t), holds) && Eval(TreeT(u), holds))
  {
    hide TreeF;
    if t.Both? {
      JoinTMeans(t.more, u, holds);
    }
  }

  lemma {:induction false} JoinEMeans(e: EText, u: EText, holds: Expr -> bool)
    ensures Eval(TreeE(JoinE(e, u)), holds) == (Eval(TreeE(e), holds) || Eval(TreeE(u), holds))
  {
    hide TreeT;
    if e.Either? {
      JoinEMeans(e.more, u, holds);
    }
  }

  lemma {:induction false} NormalMeans(env: Env, l: Expr, holds: Expr -> bool)
    requires OverObjects(env, l)
    ensures Eval(TreeF(AsF(l)), holds) == Eval(l, holds)
    ensures Eval(TreeT(AsT(l)), holds) == Eval(l, holds)
    ensures Eval(TreeE(AsE(l)), holds) == Eval(l, holds)
  {
    match l
    case And(a, b) =>
      NormalMeans(env, a, holds);
      NormalMeans(env, b, holds);
      JoinTMeans(AsT(a), AsT(b), holds);
    case Or(a, b) =>
      NormalMeans(env, a, holds);
      NormalMeans(env, b, holds);
      JoinEMeans(AsE(a), AsE(b), holds);
    case Not(a) =>
      NormalMeans(env, a, holds);
    case Const(n) =>
  }

  /** unparse_boolexp. */
  function Printed(l: Expr): string {
    Print(l, InNone, 0)
  }

  lemma {:induction false} NoneIsOr(l: Expr)
    ensures LastAt(l, InNone) == LastAt(l, InOr)
  {}

  /** A lock that does not fit is printed as a text that is no lock; a lock that fits is printed whole. */
  lemma PrintedText(env: Env, l: Expr)
    requires OverObjects(env, l)
    ensures Fits(l) ==> Printed(l) == TextE(AsE(l)) && GoodE(env, AsE(l))
    ensures !Fits(l) ==> Parse(env, Printed(l)) == None
  {
    hide Parse, Print, Unparse, AsE, TextE, LastAt, GoodE, PutE, TornE;
    NoneIsOr(l);
    if Fits(l) {
      PrintsWhole(env, l, InNone, 0);
      Prints(env, l);
    } else {
      Puts(env, l, 0);
      RefusesTorn(env, PutE(l, 0));
    }
  }

  /** A printed lock is parsed exactly when it fits, and then to a lock that means the same. */
  lemma PrintedMeansSame(env: Env, l: Expr, holds: Expr -> bool)
    requires OverObjects(env, l)
    ensures Parse(env, Printed(l)).Some? <==> Fits(l)
    ensures Fits(l) ==> Eval(Parse(env, Printed(l)).value, holds) == Eval(l, holds)
  {
    hide Parse, Printed, AsE, TextE, TreeE, Eval, Fits;
    PrintedText(env, l);
    NormalMeans(env, l, holds);
    if Fits(l) {
      ParsesText(env, AsE(l), "");
      assert TextE(AsE(l)) + "" == TextE(AsE(l));
    }
  }

  /** No operator stands directly to the left below itself. */
  ghost predicate RightNested(l: Expr) {
    match l
    case And(a, b) => !a.And? && RightNested(a) && RightNested(b)
    case Or(a, b) => !a.Or? && RightNested(a) && RightNested(b)
    case Not(a) => RightNested(a)
    case _ => true
  }

  /** The factors of a chain are no chains of the same operator themselves. */
  ghost predicate FlatT(t: TText) {
    match t
    case One(f) => !TreeF(f).And? && RightNested(TreeF(f))
    case Both(f, _, more) => !TreeF(f).And? && RightNested(TreeF(f)) && FlatT(more)
  }

  ghost predicate FlatE(e: EText) {
    match e
    case Just(t) => !TreeT(t).Or? && RightNested(TreeT(t))
    case Either(t, _, more) => !TreeT(t).Or? && RightNested(TreeT(t)) && FlatE(more)
  }

  lemma {:induction false} JoinTFlat(t: TText, u: TText)
    requires FlatT(t) && FlatT(u)
    ensures FlatT(JoinT(t, u))
  {
    hide TreeF;
    if t.Both? {
      JoinTFlat(t.more, u);
    }
  }

  lemma {:induction false} JoinEFlat(e: EText, u: EText)
    requires FlatE(e) && FlatE(u)
    ensures FlatE(JoinE(e, u))
  {
    hide TreeT;
    if e.Either? {
      JoinEFlat(e.more, u);
    }
  }

  lemma {:induction false} FlatTNested(t: TText)
    requires FlatT(t)
    ensures RightNested(TreeT(t)) && !(t.Both? && TreeT(t).Or?)
  {
    hide TreeF;
    if t.Both? {
      FlatTNested(t.more);
    }
  }

  lemma {:induction false} FlatENested(e: EText)
    requires FlatE(e)
    ensures RightNested(TreeE(e))
  {
    hide TreeT;
    if e.Either? {
      FlatENested(e.more);
    }
  }

  /** The normal form is nested to the right, whatever the lock. */
  lemma {:induction false} NormalNested(env: Env, l: Expr)
    requires OverObjects(env, l)
    ensures RightNested(TreeF(AsF(l))) && (l.Not? || l.Const? ==> TreeF(AsF(l)).Not? || TreeF(AsF(l)).Const?)
    ensures FlatT(AsT(l)) && (!l.Or? ==> !TreeT(AsT(l)).Or?)
    ensures FlatE(AsE(l))
  {
    match l
    case And(a, b) =>
      NormalNested(env, a);
      NormalNested(env, b);
      JoinTFlat(AsT(a), AsT(b));
      FlatTNested(JoinT(AsT(a), AsT(b)));
    case Or(a, b) =>
      NormalNested(env, a);
      NormalNested(env, b);
      JoinEFlat(AsE(a), AsE(b));
      FlatENested(JoinE(AsE(a), AsE(b)));
      OrTree(AsE(a), AsE(b));
    case Not(a) =>
      NormalNested(env, a);
    case Const(n) =>
  }

  lemma OrTree(e: EText, u: EText)
    ensures TreeE(JoinE(e, u)).Or?
  {}

  lemma {:induction false} NormalSame(env: Env, l: Expr)
    requires OverObjects(env, l) && RightNested(l)
    ensures TreeF(AsF(l)) == l && TreeT(AsT(l)) == l && TreeE(AsE(l)) == l
  {
    match l
    case And(a, b) =>
      NormalSame(env, a);
      NormalSame(env, b);
      var t := Both(AsF(a), "", AsT(b));
      assert JoinT(AsT(a), AsT(b)) == t && TreeT(t) == l;
      assert TreeF(AsF(l)) == TreeE(Just(t));
    case Or(a, b) =>
      NormalSame(env, a);
      NormalSame(env, b);
      assert JoinE(AsE(a), AsE(b)) == Either(AsT(a), "", AsE(b));
    case Not(a) =>
      NormalSame(env, a);
    case Const(n) =>
  }

  /** A printed lock is parsed to exactly the lock it was when it fits and its operators are nested to the
      right, and then only: the printer leaves the brackets of the others out, and what does not fit. */
  lemma PrintParseIff(env: Env, l: Expr)
    requires OverObjects(env, l)
    ensures Parse(env, Printed(l)) == if Fits(l) then Some(Normal(l)) else None
    ensures Parse(env, Printed(l)) == Some(l) <==> Fits(l) && RightNested(l)
  {
    hide Parse, Printed, AsE, TextE, TreeE, RightNested, Fits;
    PrintedText(env, l);
    NormalNested(env, l);
    FlatENested(AsE(l));
    if Fits(l) {
      ParsesText(env, AsE(l), "");
      assert TextE(AsE(l)) + "" == TextE(AsE(l));
      if RightNested(l) {
        NormalSame(env, l);
      }
    }
  }

  /** A lock to the same object n + 1 times. */
  function Times(n: nat): Expr {
    if n == 0 then Const(1) else And(Const(1), Times(n - 1))
  }

  lemma {:induction false} TimesIs(env: Env, n: nat)
    requires env.live(1)
    ensures OverObjects(env, Times(n)) && RightNested(Times(n))
    ensures LastAt(Times(n), InAnd) == LastAt(Times(n), InNone) == 3 * n
  {
    assert Unparse(Const(1), InAnd) == "#1";
    if n > 0 {
      TimesIs(env, n - 1);
    }
  }

  /** Such a lock comes back from the printer up to 1366 times the object, and from there on not at all. */
  lemma TimesParsed(env: Env, n: nat)
    requires env.live(1)
    ensures Parse(env, Printed(Times(n))) == if n <= 1365 then Some(Times(n)) else None
  {
    hide Parse, Printed, LastAt, Times, RightNested;
    TimesIs(env, n);
    PrintParseIff(env, Times(n));
  }

  /** A property's test that fits the buffer is printed as its name, a colon and its value, and read as the
      test which that text stands for. */
  lemma {:induction false} PropParses(env: Env, name: string, value: string)
    requires PlainName(name + ":" + value) && |name| + 1 + |value| < BUFFER_LEN
    ensures Printed(Prop(name, value)) == name + ":" + value
    ensures Parse(env, Printed(Prop(name, value))) == env.prop(name + ":" + value)
  {
    hide Parse, PlainName;
    var s := name + ":" + value;
    assert s[|name|] == ':';
    NamesParse(env, s);
  }

  // ----- the printer's buffer -----

  lemma {:induction false} PrintLeaf(l: Expr, outer: Outer, pos: nat)
    ensures pos > BUFFER_LEN / 2 ==> Print(l, outer, pos) == ""
    ensures pos <= BUFFER_LEN / 2 && l.Not? ==> Print(l, outer, pos) == "!" + Print(l.inner, InNot, pos + 1)
    ensures pos <= BUFFER_LEN / 2 && l.Const? ==> Print(l, outer, pos) == "#" + Signed(l.thing)
    ensures pos <= BUFFER_LEN / 2 && l.Prop? ==> Print(l, outer, pos) == Cut(l.name + ":" + l.value, BUFFER_LEN - 1 - pos)
  {
    hide Unparse, Signed, Enclosed, Cut;
  }

  class Buffer {
    var text: string

    constructor ()
      ensures text == ""
    {
      text := "";
    }

    /** unparse_boolexp1. */
    method Unparse1(l: Expr, outer: Outer)
      modifies this
      ensures text == old(text) + Print(l, outer, |old(text)|)
      decreases l, 1
    {
      hide Decimal, Unparse, Print;
      ghost var was := text;
      PrintLeaf(l, outer, |text|);
      if |text| > BUFFER_LEN / 2 {
        return;
      }
      match l {
        case And(a, b) =>
          PrintStep(l, outer, |text|);
          Infix(a, b, InAnd, "&", Opens(l, outer) == 1, l);
        case Or(a, b) =>
          PrintStep(l, outer, |text|);
          Infix(a, b, InOr, "|", Opens(l, outer) == 1, l);
        case Not(a) =>
          text := text + "!";
          Unparse1(a, InNot);
        case Const(n) =>
          text := text + ("#" + Signed(n));
        case Prop(name, value) =>
          text := text + Cut(name + ":" + value, BUFFER_LEN - 1 - |text|);
      }
    }

    /** An operator between its operands, in brackets or not. */
    method Infix(a: Expr, b: Expr, outer: Outer, op: string, brackets: bool, ghost l: Expr)
      requires a < l && b < l
      modifies this
      ensures
        var at := |old(text)| + if brackets then 1 else 0;
        var s := Print(a, outer, at);
        var t := s + op + Print(b, outer, at + |s| + |op|);
        text == old(text) + if brackets then "(" + t + ")" else t
      decreases l, 0
    {
      hide Print;
      ghost var was := text;
      if brackets {
        text := text + "(";
      }
      Unparse1(a, outer);
      text := text + op;
      Unparse1(b, outer);
      if brackets {
        text := text + ")";
      }
    }

    /** unparse_boolexp. */
    method UnparseBoolexp(l: Expr)
      modifies this
      ensures text == Printed(l)
    {
      text := "";
      Unparse1(l, InNone);
    }
  }

  // ----- the parser's shared cursor -----

  class Cursor {
    var rest: string

    constructor (s: string)
      ensures rest == s
    {
      rest := s;
    }

    method SkipWhitespace()
      modifies this
      ensures rest == Skip(old(rest))
    {
      while rest != "" && IsSpace(rest[0])
        invariant Skip(rest) == Skip(old(rest))
        decreases |rest|
      {
        rest := rest[1..];
      }
    }

    /** The characters of a name, taken one by one. */
    method TakeName() returns (name: string)
      modifies this
      ensures name == old(rest)[..NameEnd(old(rest))] && rest == old(rest)[NameEnd(old(rest))..]
    {
      name := "";
      ghost var s := rest;
      while rest != "" && !EndsName(rest[0])
        invariant |name| <= |s| && rest == s[|name|..] && name == s[..|name|]
        invariant NameEnd(s) == |name| + NameEnd(rest)
        decreases |rest|
      {
        assert s[..|name| + 1] == s[..|name|] + [s[|name|]];
        name := name + [rest[0]];
        rest := rest[1..];
      }
    }

    method Stripped(name: string) returns (s: string)
      ensures s == Strip(name)
    {
      s := name;
      while s != "" && IsSpace(s[|s| - 1])
        invariant Strip(s) == Strip(name)
        decreases |s|
      {
        s := s[..|s| - 1];
      }
    }

    method Factor(env: Env) returns (b: Option<Expr>)
      modifies this
      ensures Parsed(b, rest) == ParseF(env, old(rest))
      decreases |rest|, 0
    {
      hide Leaf, Strip;
      SkipWhitespace();
      if rest != "" && rest[0] == '(' {
        rest := rest[1..];
        b := Expression(env);
        SkipWhitespace();
        if b.None? || rest == "" {
          b := None;
        } else {
          b := if rest[0] == ')' then b else None;
          rest := rest[1..];
        }
      } else if rest != "" && rest[0] == '!' {
        rest := rest[1..];
        b := Factor(env);
        if b.Some? {
          b := Some(Not(b.value));
        }
      } else {
        var name := TakeName();
        name := Stripped(name);
        b := Leaf(env, name);
      }
    }

    method Term(env: Env) returns (b: Option<Expr>)
      modifies this
      ensures Parsed(b, rest) == ParseT(env, old(rest))
      decreases |rest|, 1
    {
      b := Factor(env);
      if b.Some? {
        SkipWhitespace();
        if rest != "" && rest[0] == '&' {
          rest := rest[1..];
          var c := Term(env);
          b := if c.None? then None else Some(And(b.value, c.value));
        }
      }
    }

    method Expression(env: Env) returns (b: Option<Expr>)
      modifies this
      ensures Parsed(b, rest) == ParseE(env, old(rest))
      decreases |rest|, 2
    {
      b := Term(env);
      if b.Some? {
        SkipWhitespace();
        if rest != "" && rest[0] == '|' {
          rest := rest[1..];
          var c := Expression(env);
          b := if c.None? then None else Some(Or(b.value, c.value));
        }
      }
    }
  }

  // ----- copying -----

  datatype Kind = KAnd | KOr | KNot | KConst | KProp

  class BoolNode {
    var kind: Kind
    var sub1: BoolNode?
    var sub2: BoolNode?
    var thing: int
    var name: string
    var value: string
    ghost var Repr: set<BoolNode>
    ghost var expr: Expr

    /** The nodes below are the tree of a lock, which expr is. */
    ghost predicate Valid()
      reads this, Repr
      decreases Repr
    {
      && this in Repr
      && (sub1 != null ==> sub1 in Repr && sub1.Repr <= Repr && this !in sub1.Repr && sub1.Valid())
      && (sub2 != null ==> sub2 in Repr && sub2.Repr <= Repr && this !in sub2.Repr && sub2.Valid())
      && (match kind
          case KAnd => sub1 != null && sub2 != null && expr == And(sub1.expr, sub2.expr)
          case KOr => sub1 != null && sub2 != null && expr == Or(sub1.expr, sub2.expr)
          case KNot => sub1 != null && expr == Not(sub1.expr)
          case KConst => expr == Const(thing)
          case KProp => expr == Prop(name, value))
    }

    constructor (k: Kind, a: BoolNode?, b: BoolNode?, t: int, n: string, v: string, ghost e: Expr)
      ensures kind == k && sub1 == a && sub2 == b && thing == t && name == n && value == v && expr == e
      ensures Repr == {this} + (if a == null then {} else a.Repr) + (if b == null then {} else b.Repr)
    {
      kind, sub1, sub2, thing, name, value, expr := k, a, b, t, n, v, e;
      Repr := {this} + (if a == null then {} else a.Repr) + (if b == null then {} else b.Repr);
    }
  }

  /** copy_bool: fresh nodes with the same lock. */
  method CopyBool(b: BoolNode?) returns (o: BoolNode?)
    requires b != null ==> b.Valid()
    ensures b == null <==> o == null
    ensures o != null ==> o.Valid() && fresh(o.Repr) && o.expr == b.expr
    decreases if b == null then {} else b.Repr
  {
    if b == null {
      return null;
    }
    var s1, s2: BoolNode? := null, null;
    match b.kind {
      case KAnd =>
        s1 := CopyBool(b.sub1);
        s2 := CopyBool(b.sub2);
      case KOr =>
        s1 := CopyBool(b.sub1);
        s2 := CopyBool(b.sub2);
      case KNot =>
        s1 := CopyBool(b.sub1);
      case KConst =>
      case KProp =>
    }
    o := new BoolNode(b.kind, s1, s2, b.thing, b.name, b.value, b.expr);
  }

  /** eval_boolexp_rec; a lock that is not there is open. */
  method EvalRec(b: BoolNode?, holds: Expr -> bool) returns (r: bool)
    requires b != null ==> b.Valid()
    ensures r == (b == null || Eval(b.expr, holds))
    decreases if b == null then {} else b.Repr
  {
    if b == null {
      return true;
    }
    match b.kind {
      case KAnd =>
        r := EvalRec(b.sub1, holds);
        if r {
          r := EvalRec(b.sub2, holds);
        }
      case KOr =>
        r := EvalRec(b.sub1, holds);
        if !r {
          r := EvalRec(b.sub2, holds);
        }
      case KNot =>
        r := EvalRec(b.sub1, holds);
        r := !r;
      case KConst =>
        r := holds(Const(b.thing));
      case KProp =>
        r := holds(Prop(b.name, b.value));
    }
  }

  /** eval_boolexp evaluates a copy, which gives what the lock itself would. */
  method EvalBoolexp(b: BoolNode?, holds: Expr -> bool) returns (r: bool)
    requires b != null ==> b.Valid()
    ensures r == (b == null || Eval(b.expr, holds))
  {
    var o := CopyBool(b);
    r := EvalRec(o, holds);
  }
}
