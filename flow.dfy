/** Ports and pin names of package flow (flow/flow.go): the reference-counted
    output `connection`, the discarding `fakeSink`, the pin-name splitters,
    the `transformer` gadget and the `Check` helper. */
module Flow {
  import opened Runtime
  import opened GoStrings

  // ---------------------------------------------------------------------
  // connection: a reference-counted output

  /** The state of a connection: its channel and the number of senders
      that have not yet called Close. */
  datatype Link = Link(channel: Chan, senders: int)

  /** A closed channel has no senders left. Every Close keeps this, and it
      is what makes the close inside Close happen at most once. */
  ghost predicate LinkOk(l: Link) {
    l.channel.closed ==> l.senders <= 0
  }

  /** connection.Close: one sender fewer; the channel is closed exactly when
      the count reaches zero. */
  function CloseStep(l: Link): (r: Link)
    requires LinkOk(l)
    ensures LinkOk(r)
    ensures r.senders == l.senders - 1
    ensures (!l.channel.closed && r.channel.closed) <==> r.senders == 0
    ensures l.channel.closed ==> r.channel.closed
    ensures r.channel.queue == l.channel.queue && r.channel.capacity == l.channel.capacity
  {
    var n := l.senders - 1;
    Link(if n == 0 then CloseChan(l.channel) else l.channel, n)
  }

  /** The state after `k` calls of Close. */
  function CloseTimes(l: Link, k: nat): (r: Link)
    requires LinkOk(l)
    ensures LinkOk(r)
    decreases k
  {
    if k == 0 then l else CloseTimes(CloseStep(l), k - 1)
  }

  /** Once closed, a connection stays closed and its count keeps falling. */
  lemma {:induction false} StaysClosed(l: Link, k: nat)
    requires LinkOk(l) && l.channel.closed
    ensures CloseTimes(l, k).channel.closed
    ensures CloseTimes(l, k).senders == l.senders - k
    decreases k
  {
    if k > 0 {
      StaysClosed(CloseStep(l), k - 1);
    }
  }

  /** With `n >= 1` senders, the channel is closed after exactly `n` calls
      of Close and not before, and the count is `n - k` after `k` calls. */
  lemma {:induction false} ClosedAfterExactlyN(l: Link, k: nat)
    requires !l.channel.closed && l.senders >= 1
    ensures CloseTimes(l, k).senders == l.senders - k
    ensures CloseTimes(l, k).channel.closed <==> k >= l.senders
    decreases k
  {
    if k > 0 {
      var next := CloseStep(l);
      if next.senders == 0 {
        StaysClosed(next, k - 1);
      } else {
        ClosedAfterExactlyN(next, k - 1);
      }
    }
  }

  /** The close inside Close happens at the n-th call and at no other. */
  lemma ClosesOnlyOnce(l: Link, k: nat)
    requires !l.channel.closed && l.senders >= 1
    ensures (!CloseTimes(l, k).channel.closed && CloseTimes(l, k + 1).channel.closed) <==> k + 1 == l.senders
  {
    ClosedAfterExactlyN(l, k);
    ClosedAfterExactlyN(l, k + 1);
  }

  class Connection {
    var channel: Chan
    var senders: int

    ghost predicate Valid()
      reads this
    {
      LinkOk(View())
    }

    function View(): Link
      reads this
    {
      Link(channel, senders)
    }

    constructor (capacity: nat, senders: int)
      ensures View() == Link(MakeChan(capacity), senders)
    {
      channel := MakeChan(capacity);
      this.senders := senders;
    }

    /** connection.Send: the memo goes to the back of the channel. */
    method Send(v: Memo)
      requires !channel.closed
      modifies this
      ensures channel == SendOn(old(channel), v)
      ensures senders == old(senders)
    {
      channel := SendOn(channel, v);
    }

    /** connection.Close */
    method Close()
      requires Valid()
      modifies this
      ensures Valid()
      ensures View() == CloseStep(old(View()))
    {
      senders := senders - 1;
      if senders == 0 {
        channel := CloseChan(channel);
      }
    }
  }

  // ---------------------------------------------------------------------
  // fakeSink: where unconnected outputs go

  class FakeSink {
    constructor () {}

    /** fakeSink.Send: one "Lost" line per memo. */
    method Send(m: Memo, console: Console)
      modifies console
      ensures console.lines == old(console.lines) + [LostReport(m)]
    {
      console.lines := console.lines + [LostReport(m)];
    }

    /** fakeSink.Close does nothing: it has no frame. */
    method Close() {}
  }

  /** The Output interface, with its two implementations. */
  datatype Output = Wired(conn: Connection) | Discard(sink: FakeSink)

  function OutFrame(o: Output): set<object> {
    if o.Wired? then {o.conn} else {}
  }

  /** What an output has been sent so far, as far as anyone can observe:
      the connection's channel and sender count, and the console. */
  datatype Outbox = Outbox(channel: Chan, senders: int, lines: seq<Report>)

  function Snapshot(o: Output, console: Console): (b: Outbox)
    reads OutFrame(o), console
    ensures o.Wired? ==> b.channel == o.conn.channel
  {
    match o
    case Wired(c) => Outbox(c.channel, c.senders, console.lines)
    case Discard(_) => Outbox(MakeChan(0), 0, console.lines)
  }

  /** The outbox after the memos `xs` are sent on `o`: a connection's
      channel gains them at its back, a sink writes one "Lost" line each. */
  function Extended(o: Output, b: Outbox, xs: seq<Memo>): (b': Outbox)
    requires o.Wired? ==> !b.channel.closed
    ensures o.Wired? ==> !b'.channel.closed
  {
    if o.Wired? then b.(channel := SendAll(b.channel, xs)) else b.(lines := b.lines + LostReports(xs))
  }

  /** Sending `xs` and then `ys` is sending `xs + ys`. */
  lemma ExtendedTwice(o: Output, b: Outbox, xs: seq<Memo>, ys: seq<Memo>)
    requires o.Wired? ==> !b.channel.closed
    ensures Extended(o, Extended(o, b, xs), ys) == Extended(o, b, xs + ys)
  {
    if o.Wired? {
      assert b.channel.queue + xs + ys == b.channel.queue + (xs + ys);
    } else {
      LostReportsAppend(xs, ys);
      assert b.lines + LostReports(xs) + LostReports(ys) == b.lines + (LostReports(xs) + LostReports(ys));
    }
  }

  /** Between the old and the current state, output `o` was sent exactly
      the memos `xs`, in order, and nothing else changed. */
  twostate predicate Emitted(o: Output, console: Console, xs: seq<Memo>)
    reads OutFrame(o), console
  {
    && (o.Wired? ==> !old(o.conn.channel.closed))
    && Snapshot(o, console) == Extended(o, old(Snapshot(o, console)), xs)
  }

  /** Output.Send, dispatched on the implementation. */
  method Emit(o: Output, v: Memo, console: Console)
    requires o.Wired? ==> !o.conn.channel.closed
    modifies OutFrame(o), console
    ensures Emitted(o, console, [v])
  {
    match o
    case Wired(c) =>
      c.Send(v);
    case Discard(s) =>
      s.Send(v, console);
      assert LostReports([v]) == [LostReport(v)] by {
        assert [v][1..] == [];
      }
  }

  // ---------------------------------------------------------------------
  // pin names

  /** workerPart: "a" from "a.b". Without a '.', Go slices s[:-1] and
      panics, so a '.' is required. */
  function WorkerPart(s: string): (w: string)
    requires '.' in s
    ensures '.' !in w
    ensures |w| < |s| && s[..|w|] == w && s[|w|] == '.'
  {
    s[..IndexRune(s, '.')]
  }

  /** portPart: "b" from "a.b", and the whole name when there is no '.'. */
  function PortPart(s: string): (p: string)
    ensures '.' !in s ==> p == s
    ensures '.' in s ==> s == WorkerPart(s) + "." + p
  {
    var n := IndexRune(s, '.');
    if n >= 0 then
      assert s == s[..n] + "." + s[n + 1..];
      s[n + 1..]
    else s
  }

  /** Composing a pin name and taking it apart again gives back the worker
      and the port, provided the worker name has no '.'. */
  lemma PinNameRoundTrip(worker: string, port: string)
    requires '.' !in worker
    ensures WorkerPart(worker + "." + port) == worker
    ensures PortPart(worker + "." + port) == port
  {
    var s := worker + "." + port;
    assert s[|worker|] == '.' && s[..|worker|] == worker;
    assert s[|worker| + 1..] == port;
  }

  // ---------------------------------------------------------------------
  // transformer and Check

  /** The memos a transformer sends for the memos it receives. */
  function Apply(f: Memo -> Memo, ms: seq<Memo>): (r: seq<Memo>)
    ensures |r| == |ms|
  {
    if ms == [] then [] else [f(ms[0])] + Apply(f, ms[1..])
  }

  /** Exactly one f(m) per memo m, in the same order. */
  lemma {:induction false} ApplyPointwise(f: Memo -> Memo, ms: seq<Memo>)
    ensures |Apply(f, ms)| == |ms|
    ensures forall i :: 0 <= i < |ms| ==> Apply(f, ms)[i] == f(ms[i])
  {
    if ms != [] {
      ApplyPointwise(f, ms[1..]);
    }
  }

  /** Receiving one more memo adds one result at the back. */
  lemma ApplyStep(f: Memo -> Memo, all: seq<Memo>, n: nat)
    requires n < |all|
    ensures Apply(f, all[..n + 1]) == Apply(f, all[..n]) + [f(all[n])]
  {
    ApplyPointwise(f, all[..n + 1]);
    ApplyPointwise(f, all[..n]);
  }

  /** A gadget that sends fun(m) for each memo m it receives. Its input is
      the channel bound to In: the memos sent to it and not yet received. */
  class Transformer {
    var input: Chan
    const out: Output
    const fun: Memo -> Memo

    constructor (fun: Memo -> Memo, input: Chan, out: Output)
      ensures this.fun == fun && this.input == input && this.out == out
    {
      this.fun := fun;
      this.input := input;
      this.out := out;
    }

    /** transformer.Run: receive every queued memo, in order, and send
        fun(m) for each. `drained` tells whether the range loop ends (the
        channel is closed) or would wait for more input. */
    method Run(console: Console) returns (drained: bool)
      requires out.Wired? ==> !out.conn.channel.closed
      modifies this, OutFrame(out), console
      ensures input == old(input).(queue := [])
      ensures Emitted(out, console, Apply(fun, old(input.queue)))
      ensures drained == input.closed
    {
      ghost var all := input.queue;
      ghost var start := Snapshot(out, console);
      ghost var n := 0;
      while input.queue != []
        invariant 0 <= n <= |all|
        invariant input == old(input).(queue := all[n..])
        invariant Snapshot(out, console) == Extended(out, start, Apply(fun, all[..n]))
        decreases |input.queue|
      {
        var m := input.queue[0];
        input := input.(queue := input.queue[1..]);
        assert m == all[n] && all[n..][1..] == all[n + 1..];
        Emit(out, fun(m), console);
        ApplyStep(fun, all, n);
        ExtendedTwice(out, start, Apply(fun, all[..n]), [fun(m)]);
        n := n + 1;
      }
      assert all[..n] == all;
      drained := input.closed;
    }
  }

  /** The error value a Check panics with, if any. */
  datatype Outcome = Proceed | Panic(reason: Memo)

  /** Check: panic with `err` unless it is nil. */
  function Check(err: Option<Memo>): (r: Outcome)
    ensures r.Proceed? <==> err.None?
    ensures r.Panic? ==> err == Some(r.reason)
  {
    if err.Some? then Panic(err.value) else Proceed
  }
}
