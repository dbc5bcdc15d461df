/** The bounded output queue of a connection: blocks of text leave in order, and when too much waits the
oldest blocks are dropped and a marker takes their place. */
module Output {

  const MARKER := "<Output Flushed>\r\n"

  // ----- what the queue holds -----

  function Total(blocks: seq<string>): nat {
    if blocks == [] then 0 else |blocks[0]| + Total(blocks[1..])
  }

  function Flat<T>(blocks: seq<seq<T>>): seq<T> {
    if blocks == [] then [] else blocks[0] + Flat(blocks[1..])
  }

  lemma {:induction false} TotalAdd(a: seq<string>, b: seq<string>)
    ensures Total(a + b) == Total(a) + Total(b)
    decreases |a|
  {
    if a == [] {
      assert a + b == b;
    } else {
      assert (a + b)[1..] == a[1..] + b;
      TotalAdd(a[1..], b);
    }
  }

  lemma {:induction false} FlatAdd<T>(a: seq<seq<T>>, b: seq<seq<T>>)
    ensures Flat(a + b) == Flat(a) + Flat(b)
    decreases |a|
  {
    if a == [] {
      assert a + b == b;
    } else {
      assert (a + b)[1..] == a[1..] + b;
      FlatAdd(a[1..], b);
    }
  }

  /** How many of the oldest blocks flush_queue drops to be rid of n characters. */
  function Dropped(blocks: seq<string>, n: int): (k: nat)
    ensures k <= |blocks|
    ensures Total(blocks[..k]) >= n || k == |blocks|
    ensures k > 0 ==> Total(blocks[..k - 1]) < n
    decreases |blocks|
  {
    if n <= 0 || blocks == [] then 0
    else
      var k := Dropped(blocks[1..], n - |blocks[0]|);
      assert blocks[..1 + k][1..] == blocks[1..][..k];
      assert k > 0 ==> blocks[..k][1..] == blocks[1..][..k - 1];
      1 + k
  }

  /** The queue after a write of the text b, when max characters may wait. */
  function Written(blocks: seq<string>, max: int, b: string): seq<string> {
    var over := Total(blocks) + |b| - max;
    var kept := if over > 0 then [MARKER] + blocks[Dropped(blocks, over + |MARKER|)..] else blocks;
    if b == "" then kept else kept + [b]
  }

  /** After a write of n characters no more wait than the limit, or the marker and those n. */
  lemma Bounded(blocks: seq<string>, max: int, b: string)
    ensures Total(Written(blocks, max, b)) <= if max > |MARKER| + |b| then max else |MARKER| + |b|
  {
    var over := Total(blocks) + |b| - max;
    var kept := if over > 0 then [MARKER] + blocks[Dropped(blocks, over + |MARKER|)..] else blocks;
    if b != "" {
      TotalAdd(kept, [b]);
      assert Total([b]) == |b|;
    }
    if over > 0 {
      var k := Dropped(blocks, over + |MARKER|);
      assert blocks == blocks[..k] + blocks[k..];
      TotalAdd(blocks[..k], blocks[k..]);
      assert ([MARKER] + blocks[k..])[1..] == blocks[k..];
    }
  }

  function Block(b: string): seq<string> {
    if b == "" then [] else [b]
  }

  /** k of the blocks that waited are gone, the marker stands in their place and the text behind the rest;
      that is within the limit, or nothing is left of what waited; and with one block more it would not have
      been. */
  ghost predicate DroppedLeast(blocks: seq<string>, max: int, b: string, after: seq<string>, k: nat) {
    && k <= |blocks| && after == [MARKER] + blocks[k..] + Block(b)
    && (|MARKER| + Total(blocks[k..]) + |b| <= max || k == |blocks|)
    && (k > 0 ==> |MARKER| + Total(blocks[k - 1..]) + |b| > max)
  }

  /** A write drops nothing when the text fits, and no more than it must when it does not. */
  lemma WriteDrops(blocks: seq<string>, max: int, b: string) returns (k: nat)
    ensures Total(blocks) + |b| <= max ==> Written(blocks, max, b) == blocks + Block(b)
    ensures Total(blocks) + |b| > max ==> DroppedLeast(blocks, max, b, Written(blocks, max, b), k)
  {
    hide Total;
    k := Dropped(blocks, Total(blocks) + |b| - max + |MARKER|);
    assert blocks == blocks[..k] + blocks[k..];
    TotalAdd(blocks[..k], blocks[k..]);
    if k > 0 {
      assert blocks == blocks[..k - 1] + blocks[k - 1..];
      TotalAdd(blocks[..k - 1], blocks[k - 1..]);
    }
    var none: seq<string> := [];
    assert blocks + none == blocks && [MARKER] + blocks[k..] + none == [MARKER] + blocks[k..];
  }

  /** How many characters leave when the socket takes the given numbers, one call after the other: whole
      blocks, until a call takes less than a block or refuses. */
  function Sent(blocks: seq<string>, counts: seq<int>): (n: nat)
    decreases |blocks|
  {
    if blocks == [] || counts == [] || counts[0] <= 0 || blocks[0] == "" then 0
    else if counts[0] < |blocks[0]| then counts[0]
    else |blocks[0]| + Sent(blocks[1..], counts[1..])
  }

  /** A socket that takes every block whole takes everything. */
  lemma {:induction false} SendsAll(blocks: seq<string>, counts: seq<int>)
    requires |blocks| <= |counts| && forall i :: 0 <= i < |blocks| ==> 0 < |blocks[i]| <= counts[i]
    ensures Sent(blocks, counts) == Total(blocks)
    decreases |blocks|
  {
    if blocks != [] {
      assert forall i :: 0 <= i < |blocks[1..]| ==> blocks[1..][i] == blocks[i + 1] && counts[1..][i] == counts[i + 1];
      SendsAll(blocks[1..], counts[1..]);
    }
  }

  lemma SentUnfold(blocks: seq<string>, counts: seq<int>, i: nat)
    requires i < |counts| && blocks != []
    ensures
      var n, c := Sent(blocks, counts[i..]), counts[i];
      && (c <= 0 || blocks[0] == "" ==> n == 0)
      && (c > 0 && blocks[0] != "" && c < |blocks[0]| ==> n == c)
      && (c > 0 && blocks[0] != "" && c >= |blocks[0]| ==> n == |blocks[0]| + Sent(blocks[1..], counts[i + 1..]))
  {
    assert counts[i..][0] == counts[i] && counts[i..][1..] == counts[i + 1..];
  }

  // ----- where every character came from -----

  /** A character that left or waits: the i-th ever written, or a character of a marker. */
  datatype Cell = Ours(i: nat) | Mark

  /** Written characters appear in order; one is missing only where a marker stands. */
  ghost predicate Faithful(s: seq<Cell>, written: nat) {
    && (forall x, y :: 0 <= x < y < |s| && s[x].Ours? && s[y].Ours? ==> s[x].i < s[y].i)
    && (forall x :: 0 <= x < |s| - 1 && s[x].Ours? && s[x + 1].Ours? ==> s[x + 1].i == s[x].i + 1)
    && (forall x :: 0 <= x < |s| && s[x].Ours? ==> s[x].i < written)
    && (s == [] ==> written == 0)
    && (s != [] && s[0].Ours? ==> s[0].i == 0)
    && (s != [] && s[|s| - 1].Ours? ==> s[|s| - 1].i + 1 == written)
  }

  function Marks(n: nat): seq<Cell> {
    seq(n, _ => Mark)
  }

  function Fresh(from: nat, n: nat): seq<Cell> {
    seq(n, j requires 0 <= j < n => Ours(from + j))
  }

  /** Where a character that is kept was before. */
  function Before(a: nat, d: nat, x: nat): int {
    if x < a then x else x - |MARKER| + d
  }

  lemma KeptAt(a: seq<Cell>, d: seq<Cell>, r: seq<Cell>, x: nat)
    requires x < |a| + |MARKER| + |r|
    ensures
      var m, y := a + Marks(|MARKER|) + r, Before(|a|, |d|, x);
      && |m| == |a| + |MARKER| + |r|
      && (m[x].Ours? ==> x < |a| || x >= |a| + |MARKER|)
      && (m[x].Ours? ==> 0 <= y < |a + d + r| && (a + d + r)[y] == m[x])
  {}

  /** Putting a marker in the place of a run keeps the rest faithful. */
  lemma DropFaithful(a: seq<Cell>, d: seq<Cell>, r: seq<Cell>, written: nat)
    requires Faithful(a + d + r, written)
    ensures Faithful(a + Marks(|MARKER|) + r, written)
  {
    hide Marks;
    var s, m := a + d + r, a + Marks(|MARKER|) + r;
    KeptAt(a, d, r, 0);
    forall x | 0 <= x < |m| && m[x].Ours?
      ensures 0 <= Before(|a|, |d|, x) < |s| && s[Before(|a|, |d|, x)] == m[x] && (x < |a| || x >= |a| + |MARKER|)
    {
      KeptAt(a, d, r, x);
    }
    DropOrder(a, d, r, s, m, written);
  }

  lemma DropOrder(a: seq<Cell>, d: seq<Cell>, r: seq<Cell>, s: seq<Cell>, m: seq<Cell>, written: nat)
    requires Faithful(s, written) && |s| == |a| + |d| + |r| && |m| == |a| + |MARKER| + |r|
    requires forall x :: 0 <= x < |m| && m[x].Ours? ==>
      0 <= Before(|a|, |d|, x) < |s| && s[Before(|a|, |d|, x)] == m[x] && (x < |a| || x >= |a| + |MARKER|)
    ensures Faithful(m, written)
  {
    forall x, y | 0 <= x < y < |m| && m[x].Ours? && m[y].Ours? ensures m[x].i < m[y].i {
      assert s[Before(|a|, |d|, x)] == m[x] && s[Before(|a|, |d|, y)] == m[y];
    }
    forall x | 0 <= x < |m| - 1 && m[x].Ours? && m[x + 1].Ours? ensures m[x + 1].i == m[x].i + 1 {
      assert s[Before(|a|, |d|, x)] == m[x] && s[Before(|a|, |d|, x + 1)] == m[x + 1];
    }
  }

  lemma WriteFaithful(s: seq<Cell>, written: nat, n: nat)
    requires Faithful(s, written)
    ensures Faithful(s + Fresh(written, n), written + n)
  {
    var f := Fresh(written, n);
    var t := s + f;
    assert forall x :: 0 <= x < |s| ==> t[x] == s[x];
    assert forall x :: |s| <= x < |t| ==> t[x] == Ours(written + x - |s|);
  }

  /** The characters of a block are those the cells say. */
  ghost predicate Shows(cells: seq<Cell>, text: string, source: string) {
    && |cells| == |text|
    && forall x :: 0 <= x < |cells| && cells[x].Ours? ==> cells[x].i < |source| && text[x] == source[cells[x].i]
  }

  lemma ShowsMore(cells: seq<Cell>, text: string, source: string, b: string)
    requires Shows(cells, text, source)
    ensures Shows(cells, text, source + b)
  {}

  ghost predicate AllShow(cells: seq<seq<Cell>>, blocks: seq<string>, source: string) {
    |cells| == |blocks| && forall i :: 0 <= i < |blocks| ==> Shows(cells[i], blocks[i], source)
  }

  /** A new text is shown by its fresh cells, at the end of what was written before. */
  lemma ShowsNew(cells: seq<seq<Cell>>, blocks: seq<string>, source: string, b: string)
    requires AllShow(cells, blocks, source)
    ensures AllShow(cells, blocks, source + b)
    ensures AllShow(cells + [Fresh(|source|, |b|)], blocks + [b], source + b)
  {
    forall i | 0 <= i < |blocks| ensures Shows(cells[i], blocks[i], source + b) {
      ShowsMore(cells[i], blocks[i], source, b);
    }
  }

  lemma ShowsCut(cells: seq<Cell>, text: string, source: string, n: nat)
    requires Shows(cells, text, source) && n <= |text|
    ensures Shows(cells[..n], text[..n], source) && Shows(cells[n..], text[n..], source)
  {}

  lemma ShowsJoin(a: seq<Cell>, s: string, b: seq<Cell>, t: string, source: string)
    requires Shows(a, s, source) && Shows(b, t, source)
    ensures Shows(a + b, s + t, source)
  {}

  lemma FlatHead<T>(x: seq<T>, rest: seq<seq<T>>)
    ensures Flat([x] + rest) == x + Flat(rest)
  {
    assert ([x] + rest)[1..] == rest;
  }

  lemma FlatTail<T>(s: seq<seq<T>>)
    requires s != []
    ensures Flat(s) == s[0] + Flat(s[1..])
  {}

  lemma FlatLast<T>(s: seq<seq<T>>, x: seq<T>)
    ensures Flat(s + [x]) == Flat(s) + x
  {
    FlatAdd(s, [x]);
    var none: seq<seq<T>> := [];
    assert [x][1..] == none && x + Flat(none) == x;
  }

  lemma TotalHead(x: string, rest: seq<string>)
    ensures Total([x] + rest) == |x| + Total(rest)
  {
    assert ([x] + rest)[1..] == rest;
  }

  lemma TotalLast(s: seq<string>, x: string)
    ensures Total(s + [x]) == Total(s) + |x|
  {
    TotalAdd(s, [x]);
    TotalHead(x, []);
    assert [x] + [] == [x];
  }

  /** Dropping the first k blocks and putting the marker in their place keeps the stream faithful. */
  lemma FlushFaithful(gone: seq<Cell>, cells: seq<seq<Cell>>, k: nat, written: nat)
    requires k <= |cells| && Faithful(gone + Flat(cells), written)
    ensures Faithful(gone + Flat([Marks(|MARKER|)] + cells[k..]), written)
  {
    hide Faithful, Marks, Flat;
    var a, b := cells[..k], cells[k..];
    assert cells == a + b;
    FlatAdd(a, b);
    assert gone + (Flat(a) + Flat(b)) == gone + Flat(a) + Flat(b);
    DropFaithful(gone, Flat(a), Flat(b), written);
    FlatHead(Marks(|MARKER|), b);
    assert gone + (Marks(|MARKER|) + Flat(b)) == gone + Marks(|MARKER|) + Flat(b);
  }

  lemma FlushShows(cells: seq<seq<Cell>>, blocks: seq<string>, k: nat, source: string)
    requires AllShow(cells, blocks, source) && k <= |blocks|
    ensures AllShow([Marks(|MARKER|)] + cells[k..], [MARKER] + blocks[k..], source)
  {
    hide Shows;
    var c, b := [Marks(|MARKER|)] + cells[k..], [MARKER] + blocks[k..];
    assert Shows(c[0], b[0], source) by { MarksShow(source); }
    forall i | 0 < i < |b| ensures Shows(c[i], b[i], source) {
      assert c[i] == cells[k + i - 1] && b[i] == blocks[k + i - 1];
    }
  }

  lemma MarksShow(source: string)
    ensures Shows(Marks(|MARKER|), MARKER, source)
  {}

  // ----- the queue -----

  class Queue {
    var blocks: seq<string>
    var lines: nat
    var size: int
    ghost var cells: seq<seq<Cell>>
    ghost var gone: seq<Cell>
    ghost var out: string
    ghost var source: string

    /** The counters are right, and what has left together with what waits is faithful to what was
        written. */
    ghost predicate Valid()
      reads this
    {
      && lines == |blocks| && size == Total(blocks)
      && AllShow(cells, blocks, source) && Shows(gone, out, source)
      && Faithful(gone + Flat(cells), |source|)
    }

    constructor ()
      ensures Valid() && blocks == [] && out == "" && source == ""
    {
      blocks, lines, size := [], 0, 0;
      cells, gone, out, source := [], [], "", "";
    }

    method DropOldest(n: int) returns (flushed: int)
      requires lines == |blocks|
      modifies `blocks, `lines
      ensures blocks == old(blocks)[Dropped(old(blocks), n)..] && lines == |blocks|
      ensures flushed == Total(old(blocks)) - Total(blocks)
    {
      hide Dropped, Total;
      var left := n;
      flushed := 0;
      ghost var k := 0;
      while left > 0 && blocks != []
        invariant k <= |old(blocks)| && blocks == old(blocks)[k..] && lines == |blocks|
        invariant flushed == Total(old(blocks)) - Total(blocks)
        invariant k + Dropped(blocks, left) == Dropped(old(blocks), n)
        decreases |blocks|
      {
        DropStep(blocks, left);
        left := left - |blocks[0]|;
        flushed := flushed + |blocks[0]|;
        blocks, lines := blocks[1..], lines - 1;
        k := k + 1;
      }
      DropStop(blocks, left);
    }

    /** flush_queue: drop the oldest blocks until n characters and the marker's length are gone, and put
        the marker at the head. */
    method FlushQueue(n: int) returns (flushed: int)
      requires Valid()
      modifies `blocks, `lines, `cells
      ensures blocks == [MARKER] + old(blocks)[Dropped(old(blocks), n + |MARKER|)..]
      ensures lines == |blocks| && flushed == old(size) - Total(blocks)
      ensures AllShow(cells, blocks, source) && Faithful(gone + Flat(cells), |source|)
    {
      hide Faithful, Flat, AllShow, Shows, Marks, Dropped, Total;
      ghost var k := Dropped(blocks, n + |MARKER|);
      SameCount(cells, blocks, source);
      FlushFaithful(gone, cells, k, |source|);
      FlushShows(cells, blocks, k, source);
      flushed := DropOldest(n + |MARKER|);
      TotalHead(MARKER, blocks);
      blocks, lines, cells := [MARKER] + blocks, lines + 1, [Marks(|MARKER|)] + cells[k..];
      flushed := flushed - |MARKER|;
    }

    /** queue_write, with tp_max_output given. */
    method QueueWrite(b: string, max: int)
      requires Valid()
      modifies this
      ensures Valid() && blocks == Written(old(blocks), max, b)
      ensures source == old(source) + b && out == old(out) && gone == old(gone)
      ensures old(size) + |b| <= max ==> blocks == old(blocks) + Block(b)
      ensures old(size) + |b| > max ==> exists k :: DroppedLeast(old(blocks), max, b, blocks, k)
    {
      hide Faithful, Flat, AllShow, Shows, Dropped;
      ghost var k := WriteDrops(blocks, max, b);
      var space := max - size - |b|;
      if space < 0 {
        var f := FlushQueue(-space);
        size := size - f;
      }
      AddToQueue(b);
    }

    method AddToQueue(b: string)
      requires Valid()
      modifies this
      ensures Valid() && blocks == if b == "" then old(blocks) else old(blocks) + [b]
      ensures source == old(source) + b && out == old(out) && gone == old(gone)
    {
      hide Faithful, Flat, AllShow, Shows, Fresh, Total;
      ghost var new_ := Fresh(|source|, |b|);
      AddFaithful(gone, cells, |source|, |b|);
      ShowsNew(cells, blocks, source, b);
      ShowsMore(gone, out, source, b);
      source := source + b;
      if b == "" {
        return;
      }
      TotalLast(blocks, b);
      blocks, lines, size, cells := blocks + [b], lines + 1, size + |b|, cells + [new_];
    }

    /** process_output, where the socket takes the given numbers of characters, one call after the
        other; a number that is not positive is a refusal. */
    method ProcessOutput(counts: seq<int>)
      requires Valid()
      modifies this
      ensures Valid() && source == old(source)
      ensures gone + Flat(cells) == old(gone + Flat(cells)) && old(gone) <= gone
      ensures out + Flat(blocks) == old(out + Flat(blocks)) && old(out) <= out
      ensures |out| == |old(out)| + Sent(old(blocks), counts)
    {
      hide Faithful, Flat, AllShow, Shows, Sent;
      NoneSent(blocks, counts);
      var i := 0;
      while i < |counts| && blocks != []
        invariant i <= |counts| && Valid() && source == old(source)
        invariant |out| + Sent(blocks, counts[i..]) == |old(out)| + Sent(old(blocks), counts)
        invariant gone + Flat(cells) == old(gone + Flat(cells)) && old(gone) <= gone
        invariant out + Flat(blocks) == old(out + Flat(blocks)) && old(out) <= out
      {
        SentUnfold(blocks, counts, i);
        var cnt := if counts[i] > |blocks[0]| then |blocks[0]| else counts[i];
        if cnt <= 0 {
          return;
        }
        i := i + 1;
        var whole := cnt == |blocks[0]|;
        SendHead(cnt);
        if !whole {
          return;
        }
      }
      NoneSent(blocks, counts[i..]);
    }

    /** The first cnt characters of the oldest block leave. */
    method SendHead(cnt: nat)
      requires Valid() && blocks != [] && 0 < cnt <= |blocks[0]|
      modifies this
      ensures Valid() && source == old(source) && old(gone) <= gone && old(out) <= out
      ensures gone + Flat(cells) == old(gone + Flat(cells)) && out + Flat(blocks) == old(out + Flat(blocks))
      ensures out == old(out) + old(blocks)[0][..cnt] && blocks == CutHead(old(blocks), cnt)
    {
      hide Faithful, Flat, AllShow, Shows, Total;
      var head, rest := blocks[0], blocks[1..];
      SameCount(cells, blocks, source);
      ghost var c, more := cells[0], cells[1..];
      HeadShows(cells, blocks, source, cnt);
      ShowsJoin(gone, out, c[..cnt], head[..cnt], source);
      CutStream(gone, cells, cnt);
      CutStream(out, blocks, cnt);
      CutTotal(blocks, cnt);
      size := size - cnt;
      gone, out := gone + c[..cnt], out + head[..cnt];
      if cnt == |head| {
        blocks, cells, lines := rest, more, lines - 1;
      } else {
        blocks, cells := [head[cnt..]] + rest, [c[cnt..]] + more;
      }
    }
  }

  lemma DropStep(blocks: seq<string>, n: int)
    requires n > 0 && blocks != []
    ensures Dropped(blocks, n) == 1 + Dropped(blocks[1..], n - |blocks[0]|)
    ensures Total(blocks) == |blocks[0]| + Total(blocks[1..])
  {}

  lemma DropStop(blocks: seq<string>, n: int)
    requires n <= 0 || blocks == []
    ensures Dropped(blocks, n) == 0
  {}

  lemma NoneSent(blocks: seq<string>, counts: seq<int>)
    ensures counts[0..] == counts && (blocks == [] || counts == [] ==> Sent(blocks, counts) == 0)
  {}

  lemma SameCount(cells: seq<seq<Cell>>, blocks: seq<string>, source: string)
    requires AllShow(cells, blocks, source)
    ensures |cells| == |blocks| && forall i :: 0 <= i < |blocks| ==> |cells[i]| == |blocks[i]|
  {}

  lemma AddFaithful(gone: seq<Cell>, cells: seq<seq<Cell>>, written: nat, n: nat)
    requires Faithful(gone + Flat(cells), written)
    ensures Faithful(gone + Flat(cells + [Fresh(written, n)]), written + n)
    ensures n == 0 ==> Faithful(gone + Flat(cells), written + n)
  {
    hide Faithful, Flat;
    var f := Fresh(written, n);
    WriteFaithful(gone + Flat(cells), written, n);
    FlatLast(cells, f);
    assert gone + (Flat(cells) + f) == gone + Flat(cells) + f;
  }

  /** Sending from the oldest block, all of it or a part. */
  function CutHead<T>(s: seq<seq<T>>, cnt: nat): seq<seq<T>>
    requires s != [] && cnt <= |s[0]|
  {
    if cnt == |s[0]| then s[1..] else [s[0][cnt..]] + s[1..]
  }

  lemma CutStream<T>(gone: seq<T>, s: seq<seq<T>>, cnt: nat)
    requires s != [] && cnt <= |s[0]|
    ensures gone + s[0][..cnt] + Flat(CutHead(s, cnt)) == gone + Flat(s)
  {
    hide Flat;
    FlatTail(s);
    FlatHead(s[0][cnt..], s[1..]);
    var a, b, r := s[0][..cnt], s[0][cnt..], Flat(s[1..]);
    assert s[0] == a + b;
    assert gone + a + (b + r) == gone + ((a + b) + r);
    if cnt == |s[0]| {
      assert a == s[0] && gone + a + r == gone + (a + r);
    }
  }

  lemma CutTotal(s: seq<string>, cnt: nat)
    requires s != [] && cnt <= |s[0]|
    ensures Total(CutHead(s, cnt)) == Total(s) - cnt
  {
    TotalHead(s[0][cnt..], s[1..]);
  }

  lemma HeadShows(cells: seq<seq<Cell>>, blocks: seq<string>, source: string, cnt: nat)
    requires AllShow(cells, blocks, source) && blocks != [] && cnt <= |blocks[0]|
    ensures |cells| == |blocks| && |cells[0]| == |blocks[0]| && Shows(cells[0][..cnt], blocks[0][..cnt], source)
    ensures AllShow(CutHead(cells, cnt), CutHead(blocks, cnt), source)
  {
    ShowsCut(cells[0], blocks[0], source, cnt);
    hide Shows;
    assert Shows(cells[0], blocks[0], source);
    assert |cells[0]| == |blocks[0]| by { SameCount(cells, blocks, source); }
    var c, b := CutHead(cells, cnt), CutHead(blocks, cnt);
    forall i | 0 <= i < |b| ensures Shows(c[i], b[i], source) {
      if cnt == |blocks[0]| {
        assert c[i] == cells[i + 1] && b[i] == blocks[i + 1];
      } else if i > 0 {
        assert c[i] == cells[i] && b[i] == blocks[i];
      }
    }
  }
}
