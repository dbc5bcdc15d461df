/** Command quotas: every connection has a bucket of commands that fills with time, and never executes
more than the bucket allows. */
module Quota {
  import opened CInts

  // ----- times -----

  /** A struct timeval: seconds, and microseconds below a million. */
  datatype Time = Time(sec: int, usec: int)

  predicate Normal(t: Time) {
    0 <= t.usec < 1000000
  }

  function Micros(t: Time): int {
    t.sec * 1000000 + t.usec
  }

  function MsecDiff(now: Time, then_: Time): int {
    (now.sec - then_.sec) * 1000 + TruncDiv(now.usec - then_.usec, 1000)
  }

  function MsecAdd(t: Time, x: int): Time {
    var sec := t.sec + TruncDiv(x, 1000);
    var usec := t.usec + TruncMod(x, 1000) * 1000;
    if usec >= 1000000 then Time(sec + TruncDiv(usec, 1000000), TruncMod(usec, 1000000)) else Time(sec, usec)
  }

  /** Adding milliseconds is exact: nothing is lost to the divisions. */
  lemma AddExact(t: Time, x: int)
    requires Normal(t) && x >= 0
    ensures Normal(MsecAdd(t, x)) && Micros(MsecAdd(t, x)) == Micros(t) + 1000 * x
  {}

  /** The difference in milliseconds is off by less than one, on either side. */
  lemma DiffClose(now: Time, then_: Time)
    requires Normal(now) && Normal(then_)
    ensures -1000 < Micros(now) - Micros(then_) - 1000 * MsecDiff(now, then_) < 1000
  {}

  // ----- one connection -----

  /** burst is the size of the bucket, rate what a slice of time adds, slice its length in milliseconds. */
  datatype Limits = Limits(burst: nat, rate: nat, slice: nat)

  /** The server divides by the length of a slice. */
  predicate Sane(l: Limits) {
    l.slice >= 1
  }

  /** A line of input that is no message of the client protocol. meta: one of the few words obeyed even
      while a program holds the player. blank: nothing but the line's end. heard: some program takes notice
      of it. holds and edits: whether a program holds the player, and whether the player is in an editor,
      once the line has been executed. */
  datatype Line = Line(meta: bool, blank: bool, heard: bool, holds: bool, edits: bool)

  /** quota: commands that may be executed now; pending: lines that wait; executed: commands so far;
      held: a program holds the player; editing: the player is in an editor. */
  datatype Conn = Conn(quota: int, pending: seq<Line>, executed: nat, held: bool, editing: bool)

  function Slices(last: Time, now: Time, l: Limits): int
    requires Sane(l)
  {
    TruncDiv(MsecDiff(now, last), l.slice)
  }

  /** What a slice adds to a connection: eight times as much in an editor. */
  function PerSlice(c: Conn, l: Limits): nat {
    if c.editing then l.rate * 8 else l.rate
  }

  function Fill(c: Conn, n: int, l: Limits): Conn {
    if n <= 0 then c
    else
      var q := c.quota + PerSlice(c, l) * n;
      c.(quota := if q > l.burst then l.burst else q)
  }

  /** A line waits, and there is quota for it. */
  predicate Served(c: Conn) {
    c.quota > 0 && c.pending != []
  }

  /** A program holds the player and the line is for the program. */
  predicate Diverted(c: Conn)
    requires c.pending != []
  {
    c.held && !c.pending[0].meta
  }

  /** One look at a connection: a command is executed; or a blank line that no program wants is eaten; or
      the line stays where it is. */
  function Once(c: Conn): Conn {
    if !Served(c) then c
    else
      var line := c.pending[0];
      if !Diverted(c) then Conn(c.quota - 1, c.pending[1..], c.executed + 1, line.holds, line.edits)
      else if !line.heard && line.blank then c.(pending := c.pending[1..])
      else c
  }

  /** What process_commands does to a connection: looks until nothing more happens. */
  function Drain(c: Conn): Conn
    decreases |c.pending|
  {
    if Once(c) == c then c else Drain(Once(c))
  }

  /** Something happens exactly when a line goes. */
  lemma OnceProgress(c: Conn)
    ensures |Once(c).pending| == if Once(c) == c then |c.pending| else |c.pending| - 1
    ensures Once(c) != c <==>
            Served(c) && (!Diverted(c) || (c.pending[0].blank && !c.pending[0].heard))
    ensures Once(c) != c ==> Once(c).pending == c.pending[1..]
    ensures Once(c) != c ==>
              Once(c).executed == c.executed + if c.held && !c.pending[0].meta then 0 else 1
  {}

  /** What has been drained is the first lines, and those behind them are left in their order. */
  lemma {:induction false} DrainTakes(c: Conn) returns (k: nat)
    ensures k <= |c.pending| && Drain(c).pending == c.pending[k..]
    decreases |c.pending|
  {
    k := 0;
    if Once(c) != c {
      OnceProgress(c);
      var j := DrainTakes(Once(c));
      k := j + 1;
    }
  }

  /** A player no program holds, whose commands leave it so, has as many lines executed as there is quota
      for. */
  lemma {:induction false} DrainFree(c: Conn)
    requires !c.held && forall i :: 0 <= i < |c.pending| ==> !c.pending[i].holds
    ensures
      var k := if c.quota <= 0 then 0 else if c.quota < |c.pending| then c.quota else |c.pending|;
      && Drain(c).pending == c.pending[k..] && Drain(c).quota == c.quota - k
      && Drain(c).executed == c.executed + k
    decreases |c.pending|
  {
    if Once(c) != c {
      DrainFree(Once(c));
    }
  }

  /** Executing commands moves quota into the count of commands, one for one, and never below zero; it ends
      with nothing left that could be done. */
  lemma {:induction false} DrainKeeps(c: Conn)
    ensures
      var d := Drain(c);
      && d.executed + d.quota == c.executed + c.quota && d.executed >= c.executed
      && (c.quota >= 0 ==> d.quota >= 0) && d.quota <= c.quota && Once(d) == d
    decreases |c.pending|
  {
    if Once(c) != c {
      OnceProgress(c);
      DrainKeeps(Once(c));
    }
  }

  /** n slices raise the quota by n times the rate, eight times that in an editor, up to the size of the
      bucket, and change nothing else. */
  lemma RefillIs(c: Conn, n: nat, l: Limits)
    requires c.quota <= l.burst
    ensures
      var full := c.quota + n * (if c.editing then 8 * l.rate else l.rate);
      Fill(c, n, l) == c.(quota := if full < l.burst then full else l.burst)
  {
    var r := PerSlice(c, l);
    assert r == if c.editing then 8 * l.rate else l.rate;
    assert r * n == n * r;
    if n == 0 {
      assert n * r == 0;
    }
  }

  // ----- whole runs -----

  /** Time passes, the server serves, a line arrives, or something else changes the player's mode. */
  datatype Event = Tick(now: Time) | Serve | Arrive(line: Line) | Change(held: bool, editing: bool)

  datatype State = State(last: Time, conn: Conn)

  function After(s: State, e: Event, l: Limits): State
    requires Sane(l)
  {
    match e
    case Tick(now) =>
      var n := Slices(s.last, now, l);
      State(MsecAdd(s.last, n * l.slice), Fill(s.conn, n, l))
    case Serve => s.(conn := Drain(s.conn))
    case Arrive(line) => s.(conn := s.conn.(pending := s.conn.pending + [line]))
    case Change(held, editing) => s.(conn := s.conn.(held := held, editing := editing))
  }

  function Run(s: State, es: seq<Event>, l: Limits): State
    requires Sane(l)
    decreases |es|
  {
    if es == [] then s else After(Run(s, es[..|es| - 1], l), es[|es| - 1], l)
  }

  /** The clock does not go back; clock is the last time it showed. */
  ghost predicate Monotone(from: Time, es: seq<Event>)
    decreases |es|
  {
    es == [] || (
      var e := es[|es| - 1];
      && Monotone(from, es[..|es| - 1])
      && (e.Tick? ==> Normal(e.now) && Micros(e.now) >= Micros(Clock(from, es[..|es| - 1]))))
  }

  function Clock(from: Time, es: seq<Event>): Time
    decreases |es|
  {
    if es == [] then from
    else if es[|es| - 1].Tick? then es[|es| - 1].now
    else Clock(from, es[..|es| - 1])
  }

  /** Whenever time passes, a slice adds at most rate. */
  ghost predicate Slow(s: State, es: seq<Event>, l: Limits, rate: nat)
    requires Sane(l)
    decreases |es|
  {
    es == [] || (
      && Slow(s, es[..|es| - 1], l, rate)
      && (es[|es| - 1].Tick? ==> PerSlice(Run(s, es[..|es| - 1], l).conn, l) <= rate))
  }

  lemma {:induction false} SlowAlways(s: State, es: seq<Event>, l: Limits)
    requires Sane(l)
    ensures Slow(s, es, l, l.rate * 8)
    decreases |es|
  {
    hide Run;
    if es != [] {
      SlowAlways(s, es[..|es| - 1], l);
    }
  }

  lemma {:induction false} ClockNormal(from: Time, es: seq<Event>)
    requires Normal(from) && Monotone(from, es)
    ensures Normal(Clock(from, es)) && Micros(Clock(from, es)) >= Micros(from)
    decreases |es|
  {
    if es != [] {
      ClockNormal(from, es[..|es| - 1]);
    }
  }

  /** The bookkeeping time against the clock: less than a millisecond ahead, and never in a later second.
      The second part is what a difference of almost a second in the microseconds needs. */
  ghost predicate Close(last: Time, clock: Time) {
    Normal(last) && Normal(clock) && Micros(last) < Micros(clock) + 1000 && last.sec <= clock.sec
  }

  lemma CloseLater(last: Time, clock: Time, now: Time)
    requires Close(last, clock) && Normal(now) && Micros(now) >= Micros(clock)
    ensures Close(last, now)
  {}

  lemma DiffNat(now: Time, last: Time)
    requires Close(last, now)
    ensures MsecDiff(now, last) >= 0
  {}

  /** Adding no more than the difference keeps the times close. */
  lemma AddClose(last: Time, now: Time, x: nat)
    requires Close(last, now) && x <= MsecDiff(now, last)
    ensures Close(MsecAdd(last, x), now)
  {
    hide MsecAdd, MsecDiff;
    AddExact(last, x);
    DiffClose(now, last);
    DiffSecond(now, last);
  }

  /** The milliseconds of the difference never lead into a later second. */
  lemma DiffSecond(now: Time, last: Time)
    requires Normal(now) && Normal(last)
    ensures Micros(last) + 1000 * MsecDiff(now, last) < (now.sec + 1) * 1000000
  {
    var d := now.usec - last.usec;
    if d >= 0 {
      assert 1000 * (d / 1000) <= d;
    } else {
      assert 1000 * ((-d) / 1000) >= -d - 999;
      assert 1000 * ((-d) / 1000) >= 0;
    }
  }

  /** At the times the server reaches, the number of slices is never negative, and they are no longer than
      the time that passed. */
  lemma SlicesNat(last: Time, now: Time, l: Limits)
    requires Sane(l) && Close(last, now)
    ensures 0 <= Slices(last, now, l) && Slices(last, now, l) * l.slice <= MsecDiff(now, last)
    ensures MsecDiff(now, last) < Slices(last, now, l) * l.slice + l.slice
  {
    hide MsecDiff, TruncDiv;
    DiffNat(now, last);
    DivBounds(MsecDiff(now, last), l.slice);
  }

  lemma DivBounds(d: nat, x: nat)
    requires x > 0
    ensures TruncDiv(d, x) >= 0 && TruncDiv(d, x) * x <= d < TruncDiv(d, x) * x + x
  {
    assert d == x * (d / x) + d % x;
  }

  /** What holds after a run: n slices have been counted, the bookkeeping time is exactly n slices after
      the start and close to the clock, and every command executed came out of the bucket or a slice. */
  ghost predicate Inv(start: State, s: State, clock: Time, n: nat, l: Limits, rate: nat) {
    && Close(s.last, clock) && Micros(s.last) == Micros(start.last) + 1000 * (n * l.slice)
    && 0 <= s.conn.quota <= l.burst
    && s.conn.executed - start.conn.executed + s.conn.quota <= start.conn.quota + rate * n
  }

  lemma TickKeeps(start: State, s: State, clock: Time, now: Time, n: nat, l: Limits, rate: nat) returns (m: nat)
    requires Sane(l) && Normal(now) && Micros(now) >= Micros(clock) && Inv(start, s, clock, n, l, rate)
    requires PerSlice(s.conn, l) <= rate
    ensures Inv(start, After(s, Tick(now), l), now, m, l, rate)
  {
    hide MsecAdd, Slices, Fill, Micros, Close, PerSlice;
    CloseLater(s.last, clock, now);
    SlicesNat(s.last, now, l);
    var k: nat := Slices(s.last, now, l);
    FillBound(s.conn, k, l, rate);
    var x, y := n * l.slice, k * l.slice;
    CloseNormal(s.last, now);
    AddExact(s.last, y);
    AddClose(s.last, now, y);
    assert (n + k) * l.slice == x + y by { Distribute(n, k, l.slice); }
    assert rate * (n + k) == rate * n + rate * k by { Distribute(n, k, rate); }
    m := n + k;
  }

  lemma CloseNormal(last: Time, now: Time)
    requires Close(last, now)
    ensures Normal(last)
  {}

  lemma FillBound(c: Conn, k: nat, l: Limits, rate: nat)
    requires 0 <= c.quota <= l.burst && PerSlice(c, l) <= rate
    ensures
      var d := Fill(c, k, l);
      0 <= d.quota <= l.burst && d.quota <= c.quota + rate * k && d.executed == c.executed
  {
    hide PerSlice;
    var r := PerSlice(c, l);
    Scale(k, r, rate);
    assert r * k == k * r && rate * k == k * rate && k * r >= 0;
  }

  lemma {:induction false} RunKeeps(start: State, es: seq<Event>, l: Limits, rate: nat) returns (n: nat)
    requires Sane(l) && Normal(start.last) && 0 <= start.conn.quota <= l.burst && Monotone(start.last, es)
    requires Slow(start, es, l, rate)
    ensures Inv(start, Run(start, es, l), Clock(start.last, es), n, l, rate)
    decreases |es|
  {
    hide After, Inv, PerSlice;
    if es == [] {
      n := 0;
      NoneYet(start, l, rate);
    } else {
      var front, e := es[..|es| - 1], es[|es| - 1];
      n := RunKeeps(start, front, l, rate);
      var s, clock := Run(start, front, l), Clock(start.last, front);
      if e.Tick? {
        n := TickKeeps(start, s, clock, e.now, n, l, rate);
      } else {
        OtherKeeps(start, s, clock, e, n, l, rate);
      }
    }
  }

  lemma NoneYet(start: State, l: Limits, rate: nat)
    requires Normal(start.last) && 0 <= start.conn.quota <= l.burst
    ensures Inv(start, start, start.last, 0, l, rate)
  {}

  lemma OtherKeeps(start: State, s: State, clock: Time, e: Event, n: nat, l: Limits, rate: nat)
    requires Sane(l) && !e.Tick? && Inv(start, s, clock, n, l, rate)
    ensures Inv(start, After(s, e, l), clock, n, l, rate)
  {
    hide Drain;
    DrainKeeps(s.conn);
  }

  lemma Distribute(m: nat, n: nat, x: nat)
    ensures (m + n) * x == m * x + n * x
  {}

  /** Over any run a connection executes at most the quota it may have at the start and, for every slice
      of the time that passed and a millisecond, what a slice adds. */
  lemma Throttled(start: State, es: seq<Event>, l: Limits, rate: nat)
    requires Sane(l) && Normal(start.last) && 0 <= start.conn.quota <= l.burst && Monotone(start.last, es)
    requires Slow(start, es, l, rate)
    ensures
      var elapsed := (Micros(Clock(start.last, es)) - Micros(start.last)) / 1000;
      && 0 <= Run(start, es, l).conn.quota <= l.burst
      && Run(start, es, l).conn.executed - start.conn.executed <= l.burst + rate * ((elapsed + 1) / l.slice)
  {
    hide Run, Clock, Monotone, Slow;
    var n := RunKeeps(start, es, l, rate);
    ClockNormal(start.last, es);
    var elapsed := (Micros(Clock(start.last, es)) - Micros(start.last)) / 1000;
    assert n * l.slice <= elapsed + 1;
    AtMost(n, elapsed + 1, l.slice);
    Scale(rate, n, (elapsed + 1) / l.slice);
  }

  /** For any player, in an editor or not, eight times the rate. */
  lemma ThrottledAlways(start: State, es: seq<Event>, l: Limits)
    requires Sane(l) && Normal(start.last) && 0 <= start.conn.quota <= l.burst && Monotone(start.last, es)
    ensures
      var elapsed := (Micros(Clock(start.last, es)) - Micros(start.last)) / 1000;
      Run(start, es, l).conn.executed - start.conn.executed <= l.burst + l.rate * 8 * ((elapsed + 1) / l.slice)
  {
    hide Run, Clock, Monotone, Slow;
    SlowAlways(start, es, l);
    Throttled(start, es, l, l.rate * 8);
  }

  lemma AtMost(n: nat, m: nat, x: nat)
    requires x > 0 && n * x <= m
    ensures n <= m / x
  {
    if n > m / x {
      Scale(x, m / x + 1, n);
    }
  }

  lemma Scale(r: nat, m: nat, n: nat)
    requires m <= n
    ensures r * m <= r * n
  {}

  /** n slices have been counted and given, and less than one is left over. */
  ghost predicate Idled(start: State, s: State, clock: Time, n: nat, l: Limits) {
    && Close(s.last, clock) && Micros(s.last) == Micros(start.last) + 1000 * (n * l.slice)
    && Micros(clock) - Micros(s.last) < 1000 * l.slice
    && s.conn.quota <= l.burst && s.conn == Fill(start.conn, n, l)
  }

  lemma IdleTick(start: State, s: State, clock: Time, now: Time, n: nat, l: Limits) returns (m: nat)
    requires Sane(l) && Normal(now) && Micros(now) >= Micros(clock) && Idled(start, s, clock, n, l)
    requires start.conn.quota <= l.burst
    ensures Idled(start, After(s, Tick(now), l), now, m, l)
  {
    hide MsecAdd, Slices, Fill, Micros, Close, PerSlice, MsecDiff;
    CloseLater(s.last, clock, now);
    SlicesNat(s.last, now, l);
    var k: nat := Slices(s.last, now, l);
    var x, y := n * l.slice, k * l.slice;
    CloseNormal(s.last, now);
    CloseClock(s.last, now);
    AddExact(s.last, y);
    AddClose(s.last, now, y);
    DiffClose(now, s.last);
    assert (n + k) * l.slice == x + y by { Distribute(n, k, l.slice); }
    FillTwice(start.conn, n, k, l);
    m := n + k;
  }

  lemma CloseClock(last: Time, now: Time)
    requires Close(last, now)
    ensures Normal(now)
  {}

  lemma FillTwice(c: Conn, n: nat, k: nat, l: Limits)
    requires c.quota <= l.burst
    ensures Fill(Fill(c, n, l), k, l) == Fill(c, n + k, l) && Fill(c, n + k, l).quota <= l.burst
  {
    hide Fill;
    RefillIs(c, n, l);
    RefillIs(Fill(c, n, l), k, l);
    RefillIs(c, n + k, l);
    var r := if c.editing then 8 * l.rate else l.rate;
    assert (n + k) * r == n * r + k * r by { Distribute(n, k, r); }
    assert n * r >= 0 && k * r >= 0;
  }

  /** While nothing but time passes, a connection is given every whole slice of it, neither more nor less,
      up to the size of its bucket. */
  lemma {:induction false} IdleFills(start: State, es: seq<Event>, l: Limits) returns (n: nat)
    requires Sane(l) && Normal(start.last) && start.conn.quota <= l.burst && Monotone(start.last, es)
    requires forall i :: 0 <= i < |es| ==> es[i].Tick?
    ensures Idled(start, Run(start, es, l), Clock(start.last, es), n, l)
    decreases |es|
  {
    hide After, Idled;
    if es == [] {
      n := 0;
      NoneIdled(start, l);
    } else {
      var front, e := es[..|es| - 1], es[|es| - 1];
      var m := IdleFills(start, front, l);
      n := IdleTick(start, Run(start, front, l), Clock(start.last, front), e.now, m, l);
    }
  }

  lemma NoneIdled(start: State, l: Limits)
    requires Sane(l) && Normal(start.last) && start.conn.quota <= l.burst
    ensures Idled(start, start, start.last, 0, l)
  {}

  // ----- the loops -----

  class Server {
    var conns: seq<Conn>
    var last: Time

    /** update_quotas. */
    method UpdateQuotas(now: Time, l: Limits)
      requires Sane(l)
      modifies this
      ensures |conns| == |old(conns)|
      ensures forall i :: 0 <= i < |conns| ==>
        State(last, conns[i]) == After(State(old(last), old(conns)[i]), Tick(now), l)
    {
      hide MsecAdd;
      var n := Slices(last, now, l);
      if n > 0 {
        var i := 0;
        while i < |conns|
          invariant i <= |conns| == |old(conns)| && last == old(last)
          invariant forall j :: 0 <= j < i ==> conns[j] == Fill(old(conns)[j], n, l)
          invariant forall j :: i <= j < |conns| ==> conns[j] == old(conns)[j]
        {
          var perTime := if conns[i].editing then l.rate * 8 else l.rate;
          var q := conns[i].quota + perTime * n;
          if q > l.burst {
            q := l.burst;
          }
          conns := conns[i := conns[i].(quota := q)];
          i := i + 1;
        }
      }
      last := MsecAdd(last, n * l.slice);
    }

    /** One round over the connections: at most one line each. */
    method Round() returns (nprocessed: nat)
      modifies `conns
      ensures |conns| == |old(conns)| && forall i :: 0 <= i < |conns| ==> conns[i] == Once(old(conns)[i])
      ensures Waiting(conns) + nprocessed == Waiting(old(conns))
      ensures nprocessed == 0 ==> conns == old(conns)
    {
      nprocessed := 0;
      var i := 0;
      while i < |conns|
        invariant i <= |conns| == |old(conns)|
        invariant forall j :: 0 <= j < i ==> conns[j] == Once(old(conns)[j])
        invariant forall j :: i <= j < |conns| ==> conns[j] == old(conns)[j]
        invariant Waiting(conns) + nprocessed == Waiting(old(conns))
        invariant nprocessed == 0 ==> conns == old(conns)
      {
        var c := conns[i];
        WaitingUpdate(conns, i, Once(c));
        OnceProgress(c);
        if c.quota > 0 && c.pending != [] {
          var line := c.pending[0];
          if c.held && !line.meta {
            if !line.heard && line.blank {
              nprocessed := nprocessed + 1;
              conns := conns[i := c.(pending := c.pending[1..])];
            }
          } else {
            nprocessed := nprocessed + 1;
            conns := conns[i := Conn(c.quota - 1, c.pending[1..], c.executed + 1, line.holds, line.edits)];
          }
        }
        i := i + 1;
      }
    }

    /** process_commands: rounds until one does nothing. */
    method ProcessCommands()
      modifies `conns
      ensures |conns| == |old(conns)| && forall i :: 0 <= i < |conns| ==> conns[i] == Drain(old(conns)[i])
    {
      hide Once, Drain;
      forall c: Conn ensures Drain(Once(c)) == Drain(c) && (Once(c) == c ==> Drain(c) == c) {
        OnceDrain(c);
      }
      var nprocessed := Round();
      while nprocessed > 0
        invariant |conns| == |old(conns)|
        invariant forall i :: 0 <= i < |conns| ==> Drain(conns[i]) == Drain(old(conns)[i])
        invariant nprocessed == 0 ==> forall i :: 0 <= i < |conns| ==> Drain(conns[i]) == conns[i]
        decreases Waiting(conns), nprocessed
      {
        nprocessed := Round();
      }
    }
  }

  lemma {:induction false} OnceDrain(c: Conn)
    ensures Drain(Once(c)) == Drain(c) && (Once(c) == c ==> Drain(c) == c)
  {}

  function Waiting(cs: seq<Conn>): nat {
    if cs == [] then 0 else |cs[0].pending| + Waiting(cs[1..])
  }

  lemma {:induction false} WaitingUpdate(cs: seq<Conn>, i: nat, c: Conn)
    requires i < |cs|
    ensures Waiting(cs[i := c]) == Waiting(cs) - |cs[i].pending| + |c.pending|
    decreases |cs|
  {
    if i == 0 {
      assert cs[0 := c][1..] == cs[1..];
    } else {
      assert cs[i := c][1..] == cs[1..][i - 1 := c];
      WaitingUpdate(cs[1..], i - 1, c);
    }
  }
}
