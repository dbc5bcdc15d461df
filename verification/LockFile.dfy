/** Locks as the database file holds them: every operator in brackets of its own, read by a recursive
function one character at a time. */
module LockFile {
  import opened Lock
  import opened Options

  /** What a property is compared with: a text, or a number when the text is one. */
  datatype Check = TextIs(text: string) | NumberIs(n: int)

  datatype FileLock =
    | AllOf(left: FileLock, right: FileLock)
    | AnyOf(left: FileLock, right: FileLock)
    | NotOf(inner: FileLock)
    | Thing(thing: int)
    | Test(name: string, check: Check)

  /** What a call reads, and what it leaves unread. No lock stands for TRUE_BOOLEXP; Abort is the
      server giving up. */
  datatype Got = Got(lock: Option<FileLock>, rest: string) | Abort

  function Until(s: string, c: char): (n: nat)
    ensures n <= |s| && (n < |s| ==> s[n] == c)
    ensures forall i :: 0 <= i < n ==> s[i] != c
  {
    if s == "" || s[0] == c then 0 else 1 + Until(s[1..], c)
  }

  function DigitEnd(s: string): (n: nat)
    ensures n <= |s| && forall i :: 0 <= i < n ==> IsDigit(s[i])
  {
    if s == "" || !IsDigit(s[0]) then 0 else 1 + DigitEnd(s[1..])
  }

  datatype Value = Value(text: string, rest: string) | Unclosed

  /** A value up to its closing bracket; a backslash takes the next character as it is. */
  function ReadValue(s: string): (v: Value)
    ensures v.Value? ==> |v.rest| < |s|
  {
    if s == "" then Unclosed
    else if s[0] == ']' then Value("", s[1..])
    else
      var t := if s[0] == '\\' then s[1..] else s;
      if t == "" then Unclosed
      else
        var v := ReadValue(t[1..]);
        if v.Unclosed? then v else Value([t[0]] + v.text, v.rest)
  }

  function CheckOf(text: string): Check {
    if Number(text).Some? then NumberIs(Number(text).value) else TextIs(text)
  }

  function ReadTest(s: string): (g: Got)
    ensures g.Got? ==> g.lock.Some? && |g.rest| < |s|
  {
    var n := Until(s, ':');
    if n == |s| || n >= BUFFER_LEN then Abort
    else
      var v := ReadValue(s[n + 1..]);
      if v.Unclosed? || |v.text| >= BUFFER_LEN then Abort else Got(Some(Test(s[..n], CheckOf(v.text))), v.rest)
  }

  /** getboolexp1. TRUE_BOOLEXP is read at the end of a line, so no operator ever gets one. */
  function Read(s: string): (g: Got)
    ensures g.Got? ==> |g.rest| <= |s|
    ensures g.Got? && g.lock.None? ==> g.rest != "" && g.rest[0] == '\n'
    decreases |s|, 0
  {
    if s == "" then Abort
    else if s[0] == '\n' then Got(None, s)
    else if s[0] == '-' then
      var n := Until(s, '\n');
      if n == |s| then Abort else Got(None, s[n..])
    else if s[0] == '(' && s[1..] != "" && s[1] == '!' then
      var g := Read(s[2..]);
      if g.Abort? || g.rest == "" || g.rest[0] != ')' then Abort else Got(Some(NotOf(g.lock.value)), g.rest[1..])
    else if s[0] == '(' then
      Pair(s[1..])
    else if s[0] == '[' then ReadTest(s[1..])
    else Got(Some(Thing(Digits(s[..DigitEnd(s)]))), s[DigitEnd(s)..])
  }

  /** After an opening bracket without an exclamation mark: a lock, an operator, a lock and the bracket. */
  function Pair(s: string): (g: Got)
    ensures g.Got? ==> g.lock.Some? && |g.rest| < |s|
    decreases |s|, 1
  {
    var g := Read(s);
    if g.Abort? || g.rest == "" || !(g.rest[0] == '&' || g.rest[0] == '|') then Abort
    else
      var h := Read(g.rest[1..]);
      if h.Abort? || h.rest == "" || h.rest[0] != ')' then Abort
      else
        var op, a, b := g.rest[0], g.lock.value, h.lock.value;
        Got(Some(if op == '&' then AllOf(a, b) else AnyOf(a, b)), h.rest[1..])
  }

  /** getboolexp: a lock and the end of its line. */
  function ReadLine(s: string): Got {
    var g := Read(s);
    if g.Abort? || g.rest == "" || g.rest[0] != '\n' then Abort else Got(g.lock, g.rest[1..])
  }

  // ----- the texts of the file -----

  /** How the reader sees a character: behind a backslash when it would mean something else. */
  function Escape(c: char): string {
    if c == ']' || c == '\\' then ['\\', c] else [c]
  }

  function Escaped(s: string): string {
    if s == "" then "" else Escape(s[0]) + Escaped(s[1..])
  }

  function CheckText(c: Check): string {
    match c
    case TextIs(text) => text
    case NumberIs(n) => Signed(n)
  }

  function Text(l: FileLock): string {
    match l
    case AllOf(a, b) => "(" + Text(a) + "&" + Text(b) + ")"
    case AnyOf(a, b) => "(" + Text(a) + "|" + Text(b) + ")"
    case NotOf(a) => "(!" + Text(a) + ")"
    case Thing(n) => Signed(n)
    case Test(name, c) => "[" + name + ":" + Escaped(CheckText(c)) + "]"
  }

  /** A property's name has no colon and fits the buffer, as does its value; a text that is a number
      counts as that number. */
  ghost predicate Writable(l: FileLock) {
    match l
    case AllOf(a, b) => Writable(a) && Writable(b)
    case AnyOf(a, b) => Writable(a) && Writable(b)
    case NotOf(a) => Writable(a)
    case Thing(n) => n >= 0
    case Test(name, c) =>
      ':' !in name && |name| < BUFFER_LEN && |CheckText(c)| < BUFFER_LEN && (c.TextIs? ==> Number(c.text).None?)
  }

  // ----- reading what was written -----

  lemma {:induction false} UntilIs(a: string, c: char, r: string)
    requires c !in a && r != "" && r[0] == c
    ensures Until(a + r, c) == |a|
    decreases |a|
  {
    if a == "" {
      assert a + r == r;
    } else {
      assert (a + r)[1..] == a[1..] + r;
      UntilIs(a[1..], c, r);
    }
  }

  lemma {:induction false} DigitsEnd(a: string, r: string)
    requires (forall i :: 0 <= i < |a| ==> IsDigit(a[i])) && (r != "" ==> !IsDigit(r[0]))
    ensures DigitEnd(a + r) == |a|
    decreases |a|
  {
    if a == "" {
      assert a + r == r;
    } else {
      assert (a + r)[1..] == a[1..] + r;
      DigitsEnd(a[1..], r);
    }
  }

  lemma {:induction false} ValueIs(s: string, r: string)
    ensures ReadValue(Escaped(s) + "]" + r) == Value(s, r)
    decreases |s|
  {
    hide Escaped, ReadValue;
    if s == "" {
      ValueCloses(r);
    } else {
      ValueIs(s[1..], r);
      EscapedOne(s, r);
      var u := Escaped(s[1..]) + "]" + r;
      ValueGoesOn(s[0], u);
      assert s == [s[0]] + s[1..];
    }
  }

  lemma {:induction false} ValueCloses(r: string)
    ensures ReadValue(Escaped("") + "]" + r) == Value("", r)
  {
    assert Escaped("") + "]" + r == "]" + r;
    assert ("]" + r)[1..] == r;
  }

  lemma {:induction false} EscapedOne(s: string, r: string)
    requires s != ""
    ensures Escaped(s) + "]" + r == Escape(s[0]) + (Escaped(s[1..]) + "]" + r)
  {
    assert Escaped(s) == Escape(s[0]) + Escaped(s[1..]);
  }

  lemma {:induction false} ValueGoesOn(c: char, u: string)
    requires ReadValue(u).Value?
    ensures ReadValue(Escape(c) + u) == Value([c] + ReadValue(u).text, ReadValue(u).rest)
  {
    var t := Escape(c) + u;
    if c == ']' || c == '\\' {
      assert t[1..] == [c] + u && t[1..][1..] == u;
    } else {
      assert t[1..] == u;
    }
  }

  lemma CheckIs(c: Check)
    requires c.TextIs? ==> Number(c.text).None?
    ensures CheckOf(CheckText(c)) == c
  {
    hide Decimal, Digits;
    if c.NumberIs? {
      if c.n < 0 {
        DecimalDigits(-c.n);
        var s := Signed(c.n);
        assert s[1..] == Decimal(-c.n);
        SkipStays(s);
      } else {
        NumberDecimal(c.n);
      }
    }
  }

  lemma TestReads(name: string, c: Check, r: string)
    requires Writable(Test(name, c))
    ensures ReadTest(name + ":" + Escaped(CheckText(c)) + "]" + r) == Got(Some(Test(name, c)), r)
  {
    hide Escaped, CheckText, ReadValue, Number, Until;
    var v := Escaped(CheckText(c)) + "]" + r;
    var s := name + ":" + Escaped(CheckText(c)) + "]" + r;
    assert s == name + (":" + v);
    UntilIs(name, ':', ":" + v);
    assert s[|name| + 1..] == v;
    assert s[..|name|] == name;
    ValueIs(CheckText(c), r);
    CheckIs(c);
  }

  lemma ThingReads(n: nat, r: string)
    requires r != "" ==> !IsDigit(r[0])
    ensures Read(Decimal(n) + r) == Got(Some(Thing(n)), r)
  {
    hide Decimal, Digits, DigitEnd, Until;
    DecimalDigits(n);
    var s := Decimal(n) + r;
    assert IsDigit(s[0]);
    DigitsEnd(Decimal(n), r);
    assert s[..|Decimal(n)|] == Decimal(n) && s[|Decimal(n)|..] == r;
  }

  /** The first character of a written lock is not one that would make the reader do something else. */
  lemma {:induction false} TextHead(l: FileLock)
    requires Writable(l)
    ensures Text(l) != "" && Text(l)[0] != '!' && Text(l)[0] != '\n' && Text(l)[0] != '-'
  {
    if l.Thing? {
      DecimalDigits(l.thing);
      assert IsDigit(Text(l)[0]);
    }
  }

  lemma {:induction false} TextUnfold(l: FileLock)
    ensures l.AllOf? ==> Text(l) == "(" + Text(l.left) + ['&'] + Text(l.right) + ")"
    ensures l.AnyOf? ==> Text(l) == "(" + Text(l.left) + ['|'] + Text(l.right) + ")"
    ensures l.NotOf? ==> Text(l) == "(!" + Text(l.inner) + ")"
    ensures l.Thing? ==> Text(l) == Signed(l.thing)
    ensures l.Test? ==> Text(l) == "[" + l.name + ":" + Escaped(CheckText(l.check)) + "]"
  {}

  lemma {:induction false} ReadsTest(l: FileLock, r: string)
    requires Writable(l) && l.Test?
    ensures Read(Text(l) + r) == Got(Some(l), r)
  {
    hide ReadTest, Escaped, CheckText, DigitEnd, Until, Text;
    TextUnfold(l);
    TestReads(l.name, l.check, r);
    var s := Text(l) + r;
    assert s[1..] == l.name + ":" + Escaped(CheckText(l.check)) + "]" + r;
  }

  /** A written lock is read back, whatever follows that is not another digit. */
  lemma {:induction false} TextReads(l: FileLock, r: string)
    requires Writable(l) && (r != "" ==> !IsDigit(r[0]))
    ensures Read(Text(l) + r) == Got(Some(l), r)
    decreases l
  {
    hide Read, Text, Escaped, CheckText, Decimal;
    TextUnfold(l);
    match l
    case AllOf(a, b) =>
      TextReads(a, ['&'] + Text(b) + ")" + r);
      TextReads(b, ")" + r);
      PairReads(a, b, '&', r);
    case AnyOf(a, b) =>
      TextReads(a, ['|'] + Text(b) + ")" + r);
      TextReads(b, ")" + r);
      PairReads(a, b, '|', r);
    case NotOf(a) =>
      TextReads(a, ")" + r);
      NotReads(a, r);
    case Thing(n) =>
      ThingReads(n, r);
    case Test(_, _) =>
      ReadsTest(l, r);
  }

  lemma {:induction false} PairReads(a: FileLock, b: FileLock, op: char, r: string)
    requires (op == '&' || op == '|') && Writable(a)
    requires Read(Text(a) + ([op] + Text(b) + ")" + r)) == Got(Some(a), [op] + Text(b) + ")" + r)
    requires Read(Text(b) + (")" + r)) == Got(Some(b), ")" + r)
    ensures
      Read("(" + Text(a) + [op] + Text(b) + ")" + r) == Got(Some(if op == '&' then AllOf(a, b) else AnyOf(a, b)), r)
  {
    hide ReadTest, Text, DigitEnd, Until;
    TextHead(a);
    var s := "(" + Text(a) + [op] + Text(b) + ")" + r;
    assert s[1..] == Text(a) + ([op] + Text(b) + ")" + r);
    assert s[1] == Text(a)[0];
    var rest := [op] + Text(b) + ")" + r;
    assert rest[1..] == Text(b) + (")" + r);
    assert (")" + r)[1..] == r;
  }

  lemma {:induction false} NotReads(a: FileLock, r: string)
    requires Writable(a)
    requires Read(Text(a) + (")" + r)) == Got(Some(a), ")" + r)
    ensures Read("(!" + Text(a) + ")" + r) == Got(Some(NotOf(a)), r)
  {
    hide ReadTest, Text, DigitEnd, Until;
    var s := "(!" + Text(a) + ")" + r;
    assert s[2..] == Text(a) + (")" + r);
    assert (")" + r)[1..] == r;
  }

  /** A line that holds a written lock gives that lock back, and an empty line none. */
  lemma LineReads(l: Option<FileLock>, more: string)
    requires l.Some? ==> Writable(l.value)
    ensures ReadLine((if l.Some? then Text(l.value) else "") + "\n" + more) == Got(l, more)
  {
    hide ReadTest, Text, DigitEnd, Until, Writable;
    var text := if l.Some? then Text(l.value) else "";
    assert text + "\n" + more == text + ("\n" + more);
    assert ("\n" + more)[1..] == more;
    if l.Some? {
      TextReads(l.value, "\n" + more);
    } else {
      assert "" + ("\n" + more) == "\n" + more;
    }
  }

  /** A line that begins with a minus is no lock, whatever else it holds. */
  lemma {:induction false} MinusReads(s: string, more: string)
    requires '\n' !in s
    ensures ReadLine("-" + s + "\n" + more) == Got(None, more)
  {
    var t := "-" + s + "\n" + more;
    assert t[|s| + 1] == '\n' && t[0] == '-' && forall i :: 0 <= i <= |s| ==> t[i] != '\n' by {
      forall i | 0 < i <= |s| ensures t[i] != '\n' {
        assert t[i] == s[i - 1];
      }
    }
    hide ReadTest, ReadValue;
    var n := Until(t, '\n');
    assert n == |s| + 1 && t[n..][1..] == more;
  }

  lemma FileText(a: nat, b: nat, name: string)
    ensures Text(AllOf(Thing(a), Thing(b))) == "(" + Signed(a) + "&" + Signed(b) + ")"
    ensures Text(AnyOf(Thing(a), Thing(b))) == "(" + Signed(a) + "|" + Signed(b) + ")"
    ensures Text(NotOf(Thing(a))) == "(!" + Signed(a) + ")"
    ensures Text(Test(name, TextIs("x"))) == "[" + name + ":x]"
    ensures Text(Test(name, TextIs("]"))) == "[" + name + ":\\]]"
  {
    assert ["]"[0]] == "]" && ["x"[0]] == "x";
    assert Escaped("x") == "x" && Escaped("]") == "\\]";
    assert "[" + name + ":" + "x" + "]" == "[" + name + ":x]";
    assert "[" + name + ":" + "\\]" + "]" == "[" + name + ":\\]]";
  }

  /** One line for every form, character by character, and its lock. */
  lemma {:induction false} SampleLines()
    ensures ReadLine("(1&23)\n") == Got(Some(AllOf(Thing(1), Thing(23))), "")
    ensures ReadLine("(1|23)\n") == Got(Some(AnyOf(Thing(1), Thing(23))), "")
    ensures ReadLine("(!1)\n") == Got(Some(NotOf(Thing(1))), "")
    ensures ReadLine("[a:x]\n") == Got(Some(Test("a", TextIs("x"))), "")
    ensures ReadLine("[a:\\]]\n") == Got(Some(Test("a", TextIs("]"))), "")
  {
    hide *;
    SampleParts();
    FileText(1, 23, "a");
    assert "(" + "1" + "&" + "23" + ")" == "(1&23)" && "(" + "1" + "|" + "23" + ")" == "(1|23)";
    assert "(!" + "1" + ")" == "(!1)" && "[" + "a" + ":x]" == "[a:x]" && "[" + "a" + ":\\]]" == "[a:\\]]";
    assert "(1&23)" + "\n" == "(1&23)\n" && "(1|23)" + "\n" == "(1|23)\n" && "(!1)" + "\n" == "(!1)\n";
    assert "[a:x]" + "\n" == "[a:x]\n" && "[a:\\]]" + "\n" == "[a:\\]]\n";
    SampleRead(AllOf(Thing(1), Thing(23)), "(1&23)");
    SampleRead(AnyOf(Thing(1), Thing(23)), "(1|23)");
    SampleRead(NotOf(Thing(1)), "(!1)");
    SampleRead(Test("a", TextIs("x")), "[a:x]");
    SampleRead(Test("a", TextIs("]")), "[a:\\]]");
  }

  lemma SampleParts()
    ensures Signed(1) == "1" && Signed(23) == "23"
    ensures Writable(AllOf(Thing(1), Thing(23))) && Writable(AnyOf(Thing(1), Thing(23))) && Writable(NotOf(Thing(1)))
    ensures Writable(Test("a", TextIs("x"))) && Writable(Test("a", TextIs("]")))
  {
    assert Decimal(2) == "2";
    NoNumber('x');
    NoNumber(']');
  }

  lemma NoNumber(c: char)
    requires !IsSpace(c) && !IsDigit(c) && c != '+' && c != '-'
    ensures Number([c]).None?
  {
    assert Skip([c]) == [c] && [c][0] == c;
    assert !AllDigits([c]);
  }

  lemma SampleRead(l: FileLock, s: string)
    requires Writable(l) && Text(l) == s
    ensures ReadLine(s + "\n") == Got(Some(l), "")
  {
    hide ReadLine, Text, Writable;
    LineReads(Some(l), "");
    assert s + "\n" + "" == s + "\n";
  }

  // ----- the reader's file -----

  /** What is unread when a character has been taken from the file. */
  function Pending(c: Option<char>, rest: string): string {
    if c.Some? then [c.value] + rest else rest
  }

  lemma PendingIs(c: Option<char>, rest: string)
    ensures c.None? ==> Pending(c, rest) == rest
    ensures c.Some? ==> Pending(c, rest) == [c.value] + rest && |Pending(c, rest)| == |rest| + 1
    ensures c.Some? ==> Pending(c, rest)[0] == c.value && Pending(c, rest)[1..] == rest
  {}

  function Prefixed(buf: string, v: Value): Value {
    if v.Unclosed? then v else Value(buf + v.text, v.rest)
  }

  lemma {:induction false} ValueStep(buf: string, u: string)
    requires u != "" && u[0] != ']'
    ensures
      var t := if u[0] == '\\' then u[1..] else u;
      && (t == "" ==> ReadValue(u) == Unclosed)
      && (t != "" ==> Prefixed(buf, ReadValue(u)) == Prefixed(buf + [t[0]], ReadValue(t[1..])))
  {
    var t := if u[0] == '\\' then u[1..] else u;
    if t != "" && ReadValue(t[1..]).Value? {
      var v := ReadValue(t[1..]);
      assert buf + ([t[0]] + v.text) == buf + [t[0]] + v.text;
    }
  }

  /** buf has been taken from the front of s and u is left, and c has not come yet. */
  ghost predicate Taken(s: string, buf: string, u: string, c: char) {
    s == buf + u && Until(s, c) == |buf| + Until(u, c)
  }

  lemma TakenNone(s: string, c: char)
    ensures Taken(s, "", s, c)
  {
    assert "" + s == s;
  }

  lemma {:induction false} TakeOne(s: string, buf: string, x: char, rest: string, c: char)
    requires Taken(s, buf, [x] + rest, c) && x != c
    ensures Taken(s, buf + [x], rest, c)
  {
    assert ([x] + rest)[1..] == rest;
    assert buf + ([x] + rest) == buf + [x] + rest;
  }

  lemma {:induction false} TakenAll(s: string, buf: string, u: string, c: char)
    requires Taken(s, buf, u, c)
    ensures |buf| + |u| == |s| && |buf| <= Until(s, c)
    ensures u == "" ==> Until(s, c) == |s|
    ensures u != "" && u[0] == c ==> Until(s, c) == |buf|
    ensures s[..|buf|] == buf && s[|buf|..] == u && (u != "" ==> s[|buf| + 1..] == u[1..])
  {}

  class File {
    var rest: string

    constructor (s: string)
      ensures rest == s
    {
      rest := s;
    }

    /** One character; None at the end of the file. */
    method GetC() returns (c: Option<char>)
      modifies this
      ensures c.None? <==> old(rest) == ""
      ensures Pending(c, rest) == old(rest)
    {
      c := None;
      if rest != "" {
        c := Some(rest[0]);
        rest := rest[1..];
      }
    }

    method UngetC(c: Option<char>)
      modifies this
      ensures rest == Pending(c, old(rest))
    {
      if c.Some? {
        rest := [c.value] + rest;
      }
    }

    method GetNumber() returns (n: int)
      modifies this
      ensures
        var s := old(rest);
        n == Digits(s[..DigitEnd(s)]) && rest == s[DigitEnd(s)..]
    {
      hide Digits;
      ghost var s := rest;
      ghost var i: nat := 0;
      NoDigits();
      n := 0;
      var c := GetC();
      while c.Some? && IsDigit(c.value)
        invariant i <= |s| && DigitEnd(s) == i + DigitEnd(s[i..]) && n == Digits(s[..i])
        invariant Pending(c, rest) == s[i..] && (c.None? ==> rest == "")
        decreases |s| - i
      {
        assert c.value == s[i];
        MoreDigits(s, i);
        n := n * 10 + (c.value as int - '0' as int);
        c := GetC();
        i := i + 1;
      }
      UngetC(c);
    }

    /** The obsolete key for nothing: the line is eaten. */
    method EatLine() returns (ok: bool)
      modifies this
      ensures
        var s := old(rest);
        ok == (Until(s, '\n') < |s|) && (ok ==> rest == s[Until(s, '\n')..])
    {
      hide *;
      ghost var s := rest;
      ghost var eaten := "";
      TakenNone(s, '\n');
      ok := false;
      var c := GetC();
      PendingIs(c, rest);
      while c.Some? && c.value != '\n'
        invariant Taken(s, eaten, Pending(c, rest), '\n') && (c.None? <==> Pending(c, rest) == "")
        decreases |Pending(c, rest)|
      {
        PendingIs(c, rest);
        TakeOne(s, eaten, c.value, rest, '\n');
        eaten := eaten + [c.value];
        c := GetC();
        PendingIs(c, rest);
      }
      PendingIs(c, rest);
      TakenAll(s, eaten, Pending(c, rest), '\n');
      if c.Some? {
        UngetC(c);
        ok := true;
      }
    }

    /** A property's name, up to the colon. */
    method GetName() returns (name: Option<string>)
      modifies this
      ensures
        var s := old(rest);
        var n := Until(s, ':');
        if n == |s| || n >= BUFFER_LEN then name == None else name == Some(s[..n]) && rest == s[n + 1..]
    {
      hide *;
      ghost var s := rest;
      var buf := "";
      TakenNone(s, ':');
      var c := GetC();
      PendingIs(c, rest);
      while c.Some? && c.value != ':' && |buf| < BUFFER_LEN
        invariant Taken(s, buf, Pending(c, rest), ':') && (c.None? <==> Pending(c, rest) == "")
        invariant |buf| <= BUFFER_LEN
        decreases |Pending(c, rest)|
      {
        PendingIs(c, rest);
        TakeOne(s, buf, c.value, rest, ':');
        buf := buf + [c.value];
        c := GetC();
        PendingIs(c, rest);
      }
      PendingIs(c, rest);
      TakenAll(s, buf, Pending(c, rest), ':');
      name := if c.None? || |buf| >= BUFFER_LEN then None else Some(buf);
    }

    method GetValue() returns (v: Option<string>)
      modifies this
      ensures
        var w := ReadValue(old(rest));
        (v == if w.Unclosed? then None else Some(w.text)) && (w.Value? ==> rest == w.rest)
    {
      hide ReadValue;
      ghost var s := rest;
      var buf := "";
      var c := GetC();
      BareValue(s);
      while c.Some? && c.value != ']'
        invariant c.None? ==> rest == ""
        invariant ReadValue(s) == Prefixed(buf, ReadValue(Pending(c, rest)))
        decreases |Pending(c, rest)|
      {
        ghost var u := Pending(c, rest);
        ValueStep(buf, u);
        if c.value == '\\' {
          c := GetC();
          assert Pending(c, rest) == u[1..];
        }
        if c.None? {
          return None;
        }
        ghost var t := Pending(c, rest);
        assert t[0] == c.value && t[1..] == rest;
        buf := buf + [c.value];
        c := GetC();
      }
      ValueEnds(Pending(c, rest));
      if c.None? {
        return None;
      }
      assert Pending(c, rest)[1..] == rest && buf + "" == buf;
      v := Some(buf);
    }

    method GetTest() returns (ok: bool, l: FileLock)
      modifies this
      ensures
        var g := ReadTest(old(rest));
        ok == g.Got? && (ok ==> g == Got(Some(l), rest))
    {
      hide ReadValue, Until, Number;
      ok, l := false, Thing(0);
      var name := GetName();
      if name.None? {
        return;
      }
      var v := GetValue();
      if v.None? || |v.value| >= BUFFER_LEN {
        return;
      }
      ok, l := true, Test(name.value, CheckOf(v.value));
    }

    /** getboolexp1. */
    method GetBoolexp1() returns (ok: bool, l: Option<FileLock>)
      modifies this
      ensures
        var g := Read(old(rest));
        ok == g.Got? && (ok ==> g == Got(l, rest))
      decreases |rest|, 0
    {
      hide ReadTest, Until, DigitEnd, Digits;
      ghost var s := rest;
      ok, l := false, None;
      var c := GetC();
      if c.None? {
        return;
      }
      assert s[0] == c.value && s[1..] == rest;
      if c.value == '\n' {
        UngetC(c);
        ok := true;
      } else if c.value == '-' {
        ok := EatLine();
        EatenLine(s);
      } else if c.value == '(' {
        ok, l := GetBracket(s);
      } else if c.value == '[' {
        var t;
        ok, t := GetTest();
        l := Some(t);
      } else {
        UngetC(c);
        assert rest == s;
        var n := GetNumber();
        ok, l := true, Some(Thing(n));
      }
    }

    /** After an opening bracket. */
    method GetBracket(ghost s: string) returns (ok: bool, l: Option<FileLock>)
      requires s != "" && s[0] == '(' && rest == s[1..]
      modifies this
      ensures
        var g := Read(s);
        ok == g.Got? && (ok ==> g == Got(l, rest))
      decreases |rest|, 2
    {
      hide ReadTest, Until, DigitEnd, Digits;
      ok, l := false, None;
      var c := GetC();
      if c == Some('!') {
        assert s[1] == '!' && s[2..] == rest;
        var sub1;
        ok, sub1 := GetBoolexp1();
        if ok {
          c := GetC();
          ok := c == Some(')');
          if ok {
            l := Some(NotOf(sub1.value));
          }
        }
      } else {
        UngetC(c);
        ok, l := GetPair();
      }
    }

    method GetPair() returns (ok: bool, l: Option<FileLock>)
      modifies this
      ensures
        var g := Pair(old(rest));
        ok == g.Got? && (ok ==> g == Got(l, rest))
      decreases |rest|, 1
    {
      hide Read;
      ok, l := false, None;
      var good, sub1 := GetBoolexp1();
      if !good {
        return;
      }
      var op := GetC();
      if op != Some('&') && op != Some('|') {
        return;
      }
      var sub2;
      good, sub2 := GetBoolexp1();
      if !good {
        return;
      }
      var c := GetC();
      if c == Some(')') {
        ok, l := true, Some(if op == Some('&') then AllOf(sub1.value, sub2.value) else AnyOf(sub1.value, sub2.value));
      }
    }

    /** getboolexp. */
    method GetBoolexp() returns (ok: bool, l: Option<FileLock>)
      modifies this
      ensures
        var g := ReadLine(old(rest));
        ok == g.Got? && (ok ==> g == Got(l, rest))
    {
      hide Read;
      ok, l := GetBoolexp1();
      if ok {
        var c := GetC();
        ok := c == Some('\n');
      }
    }
  }

  /** The line after a hyphen ends where the line with the hyphen does. */
  lemma {:induction false} EatenLine(s: string)
    requires s != "" && s[0] == '-'
    ensures Until(s, '\n') == 1 + Until(s[1..], '\n')
  {}

  lemma NoDigits()
    ensures Digits("") == 0
  {}

  lemma {:induction false} MoreDigits(s: string, i: nat)
    requires i < |s|
    ensures Digits(s[..i + 1]) == 10 * Digits(s[..i]) + (s[i] as int - '0' as int)
  {
    assert s[..i + 1][..i] == s[..i];
  }

  lemma BareValue(s: string)
    ensures Prefixed("", ReadValue(s)) == ReadValue(s)
  {
    if ReadValue(s).Value? {
      assert "" + ReadValue(s).text == ReadValue(s).text;
    }
  }

  lemma {:induction false} ValueEnds(u: string)
    requires u == "" || u[0] == ']'
    ensures ReadValue(u) == if u == "" then Unclosed else Value("", u[1..])
  {}
}
