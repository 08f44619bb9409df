/** The message logic of the serial gadgets (serial/serial.go): SketchType
    spots "[name...]" markers in a stream of lines, asks for a worker of
    type "Sketch-name" to be loaded when the registry knows that type, and
    forwards every memo on ViaOut; TimeStamp sends a timestamp before each
    memo it receives. */
module Serial {
  import opened Runtime
  import opened GoStrings
  import opened CircuitSpec
  import opened Flow
  import opened Circuits

  // ---------------------------------------------------------------------
  // markers and tags

  /** A memo SketchType treats as a marker: a string that starts with "["
      and contains a "]". */
  predicate IsMarker(m: Memo) {
    m.Str? && HasPrefix(m.s, "[") && ']' in m.s
  }

  /** A marker holds its opening '[' first and a ']' after it, so it is at
      least two characters long. */
  lemma IsMarkerShape(m: Memo)
    requires IsMarker(m)
    ensures |m.s| >= 2 && m.s[0] == '[' && ']' in m.s[1..]
  {
    var i :| 0 <= i < |m.s| && m.s[i] == ']';
    assert m.s[..1] == "[";
    assert m.s[1..][i - 1] == ']';
  }

  /** The first index at or after `i` that holds a '.' or a ']'; there is
      a ']' at or after `i`, so the scan stops inside the string. */
  function NameEndFrom(s: string, i: nat): (e: nat)
    requires i <= |s| && ']' in s[i..]
    ensures i <= e < |s|
    decreases |s| - i
  {
    if s[i] == '.' || s[i] == ']' then i
    else
      assert s[i..] == [s[i]] + s[i + 1..];
      NameEndFrom(s, i + 1)
  }

  /** NameEndFrom stops at the first '.' or ']' from `i` on. */
  lemma {:induction false} NameEndFromFirst(s: string, i: nat)
    requires i <= |s| && ']' in s[i..]
    ensures s[NameEndFrom(s, i)] == '.' || s[NameEndFrom(s, i)] == ']'
    ensures forall k :: i <= k < NameEndFrom(s, i) ==> s[k] != '.' && s[k] != ']'
    decreases |s| - i
  {
    if s[i] != '.' && s[i] != ']' {
      assert s[i..] == [s[i]] + s[i + 1..];
      NameEndFromFirst(s, i + 1);
    }
  }

  /** Where the name in a marker ends: the first '.' or ']' after the
      opening '['. It lies inside the string, so the slice that takes the
      name is in range for every marker, "[]" included. */
  function NameEnd(s: string): (e: int)
    requires HasPrefix(s, "[") && ']' in s
    ensures 1 <= e < |s|
  {
    assert s[0] == "["[0] && s == [s[0]] + s[1..];
    NameEndFrom(s, 1)
  }

  /** NameEnd is strings.IndexAny(s, ".]"): the '[' at index 0 is neither
      '.' nor ']', so the first of them in the whole string is the first
      after it. */
  lemma NameEndIsIndexAny(s: string)
    requires HasPrefix(s, "[") && ']' in s
    ensures NameEnd(s) == IndexAny(s, ".]")
  {
    assert s[0] == "["[0] && s == [s[0]] + s[1..];
    NameEndFromFirst(s, 1);
  }

  /** NameEnd stops at the first '.' or ']' after the '['. */
  lemma NameEndFirst(s: string)
    requires HasPrefix(s, "[") && ']' in s
    ensures s[NameEnd(s)] == '.' || s[NameEnd(s)] == ']'
    ensures forall i :: 1 <= i < NameEnd(s) ==> s[i] != '.' && s[i] != ']'
  {
    assert s[0] == "["[0] && s == [s[0]] + s[1..];
    NameEndFromFirst(s, 1);
  }

  /** The worker type a marker names: "Sketch-" followed by the text after
      the '[' up to the first '.' or ']'. */
  function SketchTag(s: string): (tag: string)
    requires HasPrefix(s, "[") && ']' in s
    ensures |tag| >= 7
  {
    "Sketch-" + s[1..NameEnd(s)]
  }

  /** A tag is "Sketch-" and a name without '.' or ']'; the marker is '['
      followed by that name and what NameEnd left over. */
  lemma SketchTagShape(s: string)
    requires HasPrefix(s, "[") && ']' in s
    ensures SketchTag(s)[..7] == "Sketch-"
    ensures '.' !in SketchTag(s)[7..] && ']' !in SketchTag(s)[7..]
    ensures s == "[" + SketchTag(s)[7..] + s[NameEnd(s)..]
  {
    var e := NameEnd(s);
    NameEndFirst(s);
    var tag := SketchTag(s);
    assert tag[7..] == s[1..e];
    assert s[..1] == "[";
    assert s == s[..1] + s[1..e] + s[e..];
  }

  /** The tag of the marker "[" + name + rest, where the name holds no '.'
      or ']' and the rest starts with one of them and holds a ']', is
      "Sketch-" + name: SketchTag takes back exactly the name the marker was
      written with. */
  lemma SketchTagOfMarker(name: string, rest: string)
    requires '.' !in name && ']' !in name
    requires |rest| > 0 && (rest[0] == '.' || rest[0] == ']') && ']' in rest
    ensures IsMarker(Str("[" + name + rest))
    ensures SketchTag("[" + name + rest) == "Sketch-" + name
  {
    var s := "[" + name + rest;
    assert s[..1] == "[";
    var j :| 0 <= j < |rest| && rest[j] == ']';
    assert s[|name| + 1 + j] == ']';
    NameEndFirst(s);
    var e := NameEnd(s);
    assert s[|name| + 1] == rest[0];
    assert e == |name| + 1;
    assert s[1..e] == name;
  }

  /** "[]" is a marker, and it names the type "Sketch-". */
  lemma EmptyMarkerTag()
    ensures IsMarker(Str("[]")) && SketchTag("[]") == "Sketch-"
  {
    SketchTagOfMarker("", "]");
    assert "[" + "" + "]" == "[]";
  }

  /** A typical RF12demo banner names the type "Sketch-RF12demo". */
  lemma BannerTag()
    ensures IsMarker(Str("[RF12demo.10]")) && SketchTag("[RF12demo.10]") == "Sketch-RF12demo"
  {
    var name, rest := "RF12demo", ".10]";
    assert ']' in rest by { assert rest[3] == ']'; }
    SketchTagOfMarker(name, rest);
    assert "[" + name + rest == "[RF12demo.10]";
    assert "Sketch-" + name == "Sketch-RF12demo";
  }

  // ---------------------------------------------------------------------
  // SketchType

  /** The load that one memo triggers: its tag, when it is a marker whose
      tag the registry knows; nothing otherwise. */
  function LoadFor(registry: Registry, m: Memo): (tags: seq<string>)
    ensures |tags| <= 1
    ensures |tags| == 1 <==> IsMarker(m) && SketchTag(m.s) in registry
    ensures |tags| == 1 ==> tags[0] == SketchTag(m.s) && tags[0] in registry
  {
    if IsMarker(m) && SketchTag(m.s) in registry then [SketchTag(m.s)] else []
  }

  /** The loads a stream of memos triggers, in order. */
  function Loads(registry: Registry, ms: seq<Memo>): (tags: seq<string>)
    ensures |tags| <= |ms|
  {
    if ms == [] then [] else Loads(registry, ms[..|ms| - 1]) + LoadFor(registry, ms[|ms| - 1])
  }

  /** Receiving one more memo adds the load it triggers, if any. */
  lemma LoadsStep(registry: Registry, ms: seq<Memo>, n: nat)
    requires n < |ms|
    ensures Loads(registry, ms[..n + 1]) == Loads(registry, ms[..n]) + LoadFor(registry, ms[n])
  {
    assert ms[..n + 1][..n] == ms[..n];
  }

  /** Memo `m` is a marker naming the type `t`. */
  predicate Names(m: Memo, t: string) {
    IsMarker(m) && SketchTag(m.s) == t
  }

  /** A type is loaded exactly when some marker in the stream names it and
      the registry knows it. */
  lemma {:induction false} LoadsExactly(registry: Registry, ms: seq<Memo>, t: string)
    ensures t in Loads(registry, ms) <==> t in registry && exists i :: 0 <= i < |ms| && Names(ms[i], t)
  {
    if ms != [] {
      var init, last := ms[..|ms| - 1], ms[|ms| - 1];
      LoadsExactly(registry, init, t);
      assert Loads(registry, ms) == Loads(registry, init) + LoadFor(registry, last);
      if t in Loads(registry, ms) && t !in Loads(registry, init) {
        assert Names(ms[|ms| - 1], t);
      }
      if t in Loads(registry, init) {
        var i :| 0 <= i < |init| && Names(init[i], t);
        assert ms[i] == init[i];
      }
      if t in registry && exists i :: 0 <= i < |ms| && Names(ms[i], t) {
        var i :| 0 <= i < |ms| && Names(ms[i], t);
        if i < |init| {
          assert Names(init[i], t);
        } else {
          assert t in LoadFor(registry, last);
        }
      }
    }
  }

  /** A stream without markers loads nothing. */
  lemma {:induction false} NoMarkerNoLoads(registry: Registry, ms: seq<Memo>)
    requires forall i :: 0 <= i < |ms| ==> !IsMarker(ms[i])
    ensures Loads(registry, ms) == []
  {
    if ms != [] {
      NoMarkerNoLoads(registry, ms[..|ms| - 1]);
    }
  }

  /** The SketchType gadget: its In channel, the output ViaOut, and the
      registry it looks marker tags up in. */
  class SketchType {
    var input: Chan
    const viaOut: Output
    const registry: Registry

    constructor (input: Chan, viaOut: Output, registry: Registry)
      ensures this.input == input && this.viaOut == viaOut && this.registry == registry
    {
      this.input := input;
      this.viaOut := viaOut;
      this.registry := registry;
    }

    /** The marker test SketchType.Run makes on one memo: the type to
        load, when the memo is a marker whose tag the registry knows. */
    method Inspect(m: Memo) returns (tags: seq<string>)
      ensures tags == LoadFor(registry, m)
    {
      tags := [];
      if m.Str? {
        var s := m.s;
        if HasPrefix(s, "[") && ']' in s {
          var tag := SketchTag(s);
          if tag in registry {
            tags := [tag];
          }
        }
      }
    }

    /** SketchType.Run: receive every queued memo, in order; for a marker
        whose tag the registry knows, ask for that type to be loaded (the
        tags asked for are returned in `loaded`); forward every memo on
        ViaOut, marker or not, exactly once and in order. `drained` tells
        whether the range loop ends (In is closed) or would wait. */
    method Run(console: Console) returns (drained: bool, loaded: seq<string>)
      requires viaOut.Wired? ==> !viaOut.conn.channel.closed
      modifies this, OutFrame(viaOut), console
      ensures input == old(input).(queue := [])
      ensures Emitted(viaOut, console, old(input.queue))
      ensures loaded == Loads(registry, old(input.queue))
      ensures drained == input.closed
    {
      ghost var all := input.queue;
      ghost var start := Snapshot(viaOut, console);
      ghost var n := 0;
      loaded := [];
      while input.queue != []
        invariant 0 <= n <= |all|
        invariant input == old(input).(queue := all[n..])
        invariant Snapshot(viaOut, console) == Extended(viaOut, start, all[..n])
        invariant loaded == Loads(registry, all[..n])
        decreases |input.queue|
      {
        var m := input.queue[0];
        input := input.(queue := input.queue[1..]);
        assert m == all[n] && all[n..][1..] == all[n + 1..];
        LoadsStep(registry, all, n);
        var tags := Inspect(m);
        loaded := loaded + tags;
        Emit(viaOut, m, console);
        ExtendedTwice(viaOut, start, all[..n], [m]);
        TakeOneMore(all, n);
        n := n + 1;
      }
      assert all[..n] == all;
      drained := input.closed;
    }
  }

  // ---------------------------------------------------------------------
  // TimeStamp

  /** What TimeStamp sends for the memos it receives, where `clock(i)` is
      the instant time.Now gives while handling the i-th memo. */
  function Stamped(ms: seq<Memo>, clock: nat -> int): (out: seq<Memo>)
    ensures |out| == 2 * |ms|
  {
    if ms == [] then [] else Stamped(ms[..|ms| - 1], clock) + [Time(clock(|ms| - 1)), ms[|ms| - 1]]
  }

  /** The i-th memo received is sent at position 2i + 1, right after the
      time taken while handling it. */
  lemma {:induction false} StampedPointwise(ms: seq<Memo>, clock: nat -> int)
    ensures forall i :: 0 <= i < |ms| ==> Stamped(ms, clock)[2 * i] == Time(clock(i)) && Stamped(ms, clock)[2 * i + 1] == ms[i]
  {
    if ms != [] {
      var init := ms[..|ms| - 1];
      StampedPointwise(init, clock);
      forall i | 0 <= i < |ms|
        ensures Stamped(ms, clock)[2 * i] == Time(clock(i)) && Stamped(ms, clock)[2 * i + 1] == ms[i]
      {
        if i < |init| {
          assert ms[i] == init[i];
        }
      }
    }
  }

  /** Dropping the timestamps gives back the memos received, unchanged and
      in order. */
  lemma StampedKeepsMemos(ms: seq<Memo>, clock: nat -> int)
    ensures seq(|ms|, i requires 0 <= i < |ms| => Stamped(ms, clock)[2 * i + 1]) == ms
  {
    StampedPointwise(ms, clock);
  }

  /** Handling one more memo sends its time and then the memo. */
  lemma StampedStep(ms: seq<Memo>, n: nat, clock: nat -> int)
    requires n < |ms|
    ensures Stamped(ms[..n + 1], clock) == Stamped(ms[..n], clock) + [Time(clock(n)), ms[n]]
  {
    assert ms[..n + 1][..n] == ms[..n];
  }

  /** Two sends on one output, one after the other. */
  method EmitPair(o: Output, a: Memo, b: Memo, console: Console)
    requires o.Wired? ==> !o.conn.channel.closed
    modifies OutFrame(o), console
    ensures Emitted(o, console, [a, b])
  {
    ghost var start := Snapshot(o, console);
    Emit(o, a, console);
    Emit(o, b, console);
    ExtendedTwice(o, start, [a], [b]);
    assert [a] + [b] == [a, b];
  }

  /** The TimeStamp gadget: its In channel and its Out output. */
  class TimeStamp {
    var input: Chan
    const out: Output

    constructor (input: Chan, out: Output)
      ensures this.input == input && this.out == out
    {
      this.input := input;
      this.out := out;
    }

    /** TimeStamp.Run: for every queued memo, in order, send the current
        time and then the memo. */
    method Run(clock: nat -> int, console: Console) returns (drained: bool)
      requires out.Wired? ==> !out.conn.channel.closed
      modifies this, OutFrame(out), console
      ensures input == old(input).(queue := [])
      ensures Emitted(out, console, Stamped(old(input.queue), clock))
      ensures drained == input.closed
    {
      ghost var all := input.queue;
      ghost var start := Snapshot(out, console);
      var n := 0;
      while input.queue != []
        invariant 0 <= n <= |all|
        invariant input == old(input).(queue := all[n..])
        invariant Snapshot(out, console) == Extended(out, start, Stamped(all[..n], clock))
        decreases |input.queue|
      {
        var m := input.queue[0];
        input := input.(queue := input.queue[1..]);
        assert m == all[n] && all[n..][1..] == all[n + 1..];
        ghost var sent := Stamped(all[..n], clock);
        EmitPair(out, Time(clock(n)), m, console);
        ExtendedTwice(out, start, sent, [Time(clock(n)), m]);
        StampedStep(all, n, clock);
        assert sent + [Time(clock(n))] + [m] == sent + [Time(clock(n)), m];
        n := n + 1;
      }
      assert all[..n] == all;
      drained := input.closed;
    }
  }
}
