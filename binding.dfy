/** The gadget loop of Circuit.Run (circuit.go:220-267) on values: binding
    one gadget's pins raises the fanIn of the groups its outputs go to, and
    then the gadget's inbound groups that nothing feeds are closed. Run does
    both per gadget, in map order; the corrected loop binds every gadget
    before closing anything. */
module Bindings {
  import opened Runtime
  import opened GoStrings
  import opened CircuitSpec

  /** A gadget as the binding loop sees it: its name and its pin table. */
  datatype Part = Part(name: string, pins: map<string, PinKind>)

  /** The groups after one gadget's pins are bound: each group's fanIn grows
      by the number of the gadget's output pins bound to it. */
  function BindGroups(gadget: string, pins: map<string, PinKind>, outbound: map<string, nat>, arena: seq<Group>): (a: seq<Group>)
    ensures |a| == |arena|
  {
    seq(|arena|, r requires 0 <= r < |arena| => arena[r].(fanIn := arena[r].fanIn + |OutputsInto(gadget, pins, outbound, r)|))
  }

  /** The output pins that Wiring binds to group `r`. */
  function BoundTo(gadget: string, pins: map<string, PinKind>, inbound: map<string, nat>, outbound: map<string, nat>, r: nat): set<string> {
    var b := Wiring(gadget, pins, inbound, outbound);
    set k | k in b && pins[k] == OutputPin && b[k] == Bound(r)
  }

  /** Binding raises each group's fanIn by exactly the number of output
      pins that the pin binding points at it, and changes nothing else. */
  lemma BindCountsOutputs(gadget: string, pins: map<string, PinKind>, inbound: map<string, nat>, outbound: map<string, nat>, arena: seq<Group>)
    ensures forall r :: 0 <= r < |arena| ==>
              && BindGroups(gadget, pins, outbound, arena)[r].fanIn == arena[r].fanIn + |BoundTo(gadget, pins, inbound, outbound, r)|
              && BindGroups(gadget, pins, outbound, arena)[r].channel == arena[r].channel
  {
    forall r | 0 <= r < |arena|
      ensures OutputsInto(gadget, pins, outbound, r) == BoundTo(gadget, pins, inbound, outbound, r)
    {
      var b := Wiring(gadget, pins, inbound, outbound);
      forall k | k in BoundTo(gadget, pins, inbound, outbound, r)
        ensures k in OutputsInto(gadget, pins, outbound, r)
      {
        assert b[k] == Bound(r);
      }
    }
  }

  /** Binding one gadget's pins with those in `todo` still to do, starting
      from (arena0, wired0): the done pins have their bindings, and each
      group's fanIn counts the done outputs bound to it. */
  ghost predicate BoundUpTo(gadget: string, pins: map<string, PinKind>, inbound: map<string, nat>, outbound: map<string, nat>,
                            arena0: seq<Group>, wired0: map<string, Binding>, todo: set<string>,
                            arena: seq<Group>, wired: map<string, Binding>)
  {
    var b := Wiring(gadget, pins, inbound, outbound);
    && |arena| == |arena0|
    && wired.Keys == wired0.Keys + (b.Keys - todo)
    && (forall k :: k in wired ==> wired[k] == if k in b && k !in todo then b[k] else wired0[k])
    && (forall r :: 0 <= r < |arena0| ==>
          arena[r] == arena0[r].(fanIn := arena0[r].fanIn + |OutputsInto(gadget, pins, outbound, r) - todo|))
  }

  /** One iteration of the pin loop of Run (circuit.go:222-256) for pin `k`:
      an input is set to its inbound group's channel or to nullChan, an
      output to its outbound group's channel, whose fanIn grows by one, or
      to the admin sink; a label pin is left alone. */
  method BindPin(gadget: string, pins: map<string, PinKind>, k: string, inbound: map<string, nat>, outbound: map<string, nat>,
                 arena: seq<Group>, wired: map<string, Binding>)
    returns (arena': seq<Group>, wired': map<string, Binding>)
    requires k in pins
    requires forall x :: x in outbound ==> outbound[x] < |arena|
    ensures var b := Wiring(gadget, pins, inbound, outbound);
            && wired' == (if k in b then wired[k := b[k]] else wired)
            && |arena'| == |arena|
            && forall r :: 0 <= r < |arena| ==>
                 arena'[r] == arena[r].(fanIn := arena[r].fanIn + if k in OutputsInto(gadget, pins, outbound, r) then 1 else 0)
  {
    var pin := gadget + "." + k;
    arena', wired' := arena, wired;
    match pins[k]
    case InputPin =>
      wired' := wired'[k := if pin in inbound then Bound(inbound[pin]) else NullChan];
    case OutputPin =>
      if pin in outbound {
        var r := outbound[pin];
        arena' := arena'[r := arena'[r].(fanIn := arena'[r].fanIn + 1)];
        wired' := wired'[k := Bound(r)];
      } else {
        wired' := wired'[k := AdminSink];
      }
    case LabelPin(_) =>
  }

  /** One more pin keeps BoundUpTo. */
  lemma BindStep(gadget: string, pins: map<string, PinKind>, inbound: map<string, nat>, outbound: map<string, nat>,
                 arena0: seq<Group>, wired0: map<string, Binding>, todo: set<string>, k: string,
                 arena: seq<Group>, wired: map<string, Binding>, arena': seq<Group>, wired': map<string, Binding>)
    requires k in todo
    requires BoundUpTo(gadget, pins, inbound, outbound, arena0, wired0, todo, arena, wired)
    requires var b := Wiring(gadget, pins, inbound, outbound);
             && wired' == (if k in b then wired[k := b[k]] else wired)
             && |arena'| == |arena|
             && forall r :: 0 <= r < |arena| ==>
                  arena'[r] == arena[r].(fanIn := arena[r].fanIn + if k in OutputsInto(gadget, pins, outbound, r) then 1 else 0)
    ensures BoundUpTo(gadget, pins, inbound, outbound, arena0, wired0, todo - {k}, arena', wired')
  {
    forall r | 0 <= r < |arena0|
      ensures arena'[r] == arena0[r].(fanIn := arena0[r].fanIn + |OutputsInto(gadget, pins, outbound, r) - (todo - {k})|)
    {
      var outs := OutputsInto(gadget, pins, outbound, r);
      if k in outs {
        assert outs - (todo - {k}) == (outs - todo) + {k};
      } else {
        assert outs - (todo - {k}) == outs - todo;
      }
    }
  }

  /** With no pin left, BoundUpTo is the whole binding. */
  lemma BoundAll(gadget: string, pins: map<string, PinKind>, inbound: map<string, nat>, outbound: map<string, nat>,
                 arena0: seq<Group>, wired0: map<string, Binding>, arena: seq<Group>, wired: map<string, Binding>)
    requires BoundUpTo(gadget, pins, inbound, outbound, arena0, wired0, {}, arena, wired)
    ensures wired == wired0 + Wiring(gadget, pins, inbound, outbound)
    ensures arena == BindGroups(gadget, pins, outbound, arena0)
  {
    var b := Wiring(gadget, pins, inbound, outbound);
    forall k | k in wired
      ensures wired[k] == (wired0 + b)[k]
    {
    }
    assert wired.Keys == (wired0 + b).Keys;
    var bound := BindGroups(gadget, pins, outbound, arena0);
    forall r | 0 <= r < |arena0|
      ensures arena[r] == bound[r]
    {
      assert OutputsInto(gadget, pins, outbound, r) - {} == OutputsInto(gadget, pins, outbound, r);
    }
  }

  /** The pin loop of Run for one gadget (circuit.go:223-257), visiting
      the pins in any order: the bindings of its input and output pins are
      added to `wired`, and the groups are those BindGroups gives. */
  method BindGadgetPins(gadget: string, pins: map<string, PinKind>, inbound: map<string, nat>, outbound: map<string, nat>,
                        arena: seq<Group>, wired: map<string, Binding>)
    returns (arena': seq<Group>, wired': map<string, Binding>)
    requires forall k :: k in outbound ==> outbound[k] < |arena|
    ensures wired' == wired + Wiring(gadget, pins, inbound, outbound)
    ensures arena' == BindGroups(gadget, pins, outbound, arena)
  {
    arena', wired' := arena, wired;
    var todo := pins.Keys;
    while todo != {}
      invariant todo <= pins.Keys
      invariant BoundUpTo(gadget, pins, inbound, outbound, arena, wired, todo, arena', wired')
      decreases |todo|
    {
      var k :| k in todo;
      ghost var (arena0, wired0) := (arena', wired');
      arena', wired' := BindPin(gadget, pins, k, inbound, outbound, arena', wired');
      BindStep(gadget, pins, inbound, outbound, arena, wired, todo, k, arena0, wired0, arena', wired');
      todo := todo - {k};
    }
    BoundAll(gadget, pins, inbound, outbound, arena, wired, arena', wired');
  }

  /** A group whose channel can be closed: not nil and not closed yet. */
  predicate Closable(g: Group) {
    g.channel.Some? && !g.channel.value.closed
  }

  /** The groups Run closes for one gadget. */
  function DoomedGroups(gadget: string, inbound: map<string, nat>, arena: seq<Group>): set<nat>
    requires forall k :: k in inbound ==> inbound[k] < |arena|
  {
    set k | k in Doomed(gadget, inbound, arena) :: inbound[k]
  }

  /** A group with its channel closed. */
  function CloseGroup(g: Group): Group
    requires Closable(g)
  {
    g.(channel := Some(CloseChan(g.channel.value)))
  }

  /** Closing one gadget's doomed groups (circuit.go:259-266): None when one
      of them has a nil or closed channel, since close panics there. */
  function CloseGroups(gadget: string, inbound: map<string, nat>, arena: seq<Group>): (r: Option<seq<Group>>)
    requires forall k :: k in inbound ==> inbound[k] < |arena|
    ensures r.Some? ==> |r.value| == |arena|
  {
    var doomed := DoomedGroups(gadget, inbound, arena);
    if forall k :: k in Doomed(gadget, inbound, arena) ==> Closable(arena[inbound[k]]) then
      Some(seq(|arena|, i requires 0 <= i < |arena| => if i in doomed && Closable(arena[i]) then CloseGroup(arena[i]) else arena[i]))
    else
      None
  }

  /** Closing panics exactly when some inbound pin of the gadget that
      nothing feeds has a nil or closed channel; otherwise afterwards every
      such pin's channel is closed, every fanIn is unchanged, and every
      group that is not one of them is untouched. */
  lemma CloseGroupsEffect(gadget: string, inbound: map<string, nat>, arena: seq<Group>)
    requires forall k :: k in inbound ==> inbound[k] < |arena|
    ensures CloseGroups(gadget, inbound, arena).Some? <==>
              forall k :: k in inbound && HasPrefix(k, gadget + ".") && arena[inbound[k]].fanIn == 0 ==> Closable(arena[inbound[k]])
    ensures CloseGroups(gadget, inbound, arena).Some? ==>
              var a := CloseGroups(gadget, inbound, arena).value;
              && (forall k :: k in inbound && HasPrefix(k, gadget + ".") && arena[inbound[k]].fanIn == 0 ==>
                    a[inbound[k]].channel.Some? && a[inbound[k]].channel.value.closed)
              && (forall i :: 0 <= i < |arena| ==> a[i].fanIn == arena[i].fanIn)
              && (forall i :: 0 <= i < |arena| && (forall k :: k in Doomed(gadget, inbound, arena) ==> inbound[k] != i) ==> a[i] == arena[i])
  {
    var doomed := Doomed(gadget, inbound, arena);
    forall k | k in inbound
      ensures k in doomed <==> HasPrefix(k, gadget + ".") && arena[inbound[k]].fanIn == 0
    {
    }
    if CloseGroups(gadget, inbound, arena).Some? {
      var a := CloseGroups(gadget, inbound, arena).value;
      forall k | k in doomed
        ensures a[inbound[k]].channel.Some? && a[inbound[k]].channel.value.closed
      {
        assert inbound[k] in DoomedGroups(gadget, inbound, arena);
      }
      forall i | 0 <= i < |arena| && (forall k :: k in doomed ==> inbound[k] != i)
        ensures a[i] == arena[i]
      {
        assert i !in DoomedGroups(gadget, inbound, arena);
      }
    }
  }

  /** The closing loop of Run for one gadget (circuit.go:259-266), over the
      inbound pins in any order: `ok` is false when a close would panic, and
      otherwise the groups are those CloseGroups gives. Run's inbound pins
      each own their group. */
  method CloseInputs(gadget: string, inbound: map<string, nat>, arena: seq<Group>) returns (ok: bool, arena': seq<Group>)
    requires forall k :: k in inbound ==> inbound[k] < |arena|
    requires forall a, b :: a in inbound && b in inbound && inbound[a] == inbound[b] ==> a == b
    ensures ok <==> CloseGroups(gadget, inbound, arena).Some?
    ensures ok ==> arena' == CloseGroups(gadget, inbound, arena).value
  {
    arena' := arena;
    var todo := inbound.Keys;
    ghost var shut: set<nat> := {};
    while todo != {}
      invariant todo <= inbound.Keys && |arena'| == |arena|
      invariant shut <= DoomedGroups(gadget, inbound, arena)
      invariant forall i :: 0 <= i < |arena| ==> arena'[i] == if i in shut && Closable(arena[i]) then CloseGroup(arena[i]) else arena[i]
      invariant forall k :: k in todo ==> inbound[k] !in shut
      invariant forall k :: k in Doomed(gadget, inbound, arena) && k !in todo ==> inbound[k] in shut && Closable(arena[inbound[k]])
      decreases |todo|
    {
      var k :| k in todo;
      var r := inbound[k];
      if HasPrefix(k, gadget + ".") && arena'[r].fanIn == 0 {
        assert k in Doomed(gadget, inbound, arena);
        if !Closable(arena'[r]) {
          return false, arena';
        }
        arena' := arena'[r := CloseGroup(arena'[r])];
        shut := shut + {r};
      }
      todo := todo - {k};
    }
    forall i | i in DoomedGroups(gadget, inbound, arena)
      ensures i in shut && Closable(arena[i])
    {
      var k :| k in Doomed(gadget, inbound, arena) && inbound[k] == i;
    }
    ok := true;
  }

  // ---------------------------------------------------------------------
  // the whole gadget loop

  /** Run's gadget loop as written (circuit.go:220-267): each gadget in
      turn has its pins bound and then its unfed inbound groups closed.
      None when a close panics. */
  function GadgetLoop(parts: seq<Part>, inbound: map<string, nat>, outbound: map<string, nat>, arena: seq<Group>): (r: Option<seq<Group>>)
    requires forall k :: k in inbound ==> inbound[k] < |arena|
    ensures r.Some? ==> |r.value| == |arena|
    decreases |parts|
  {
    if parts == [] then Some(arena)
    else
      var bound := BindGroups(parts[0].name, parts[0].pins, outbound, arena);
      match CloseGroups(parts[0].name, inbound, bound)
      case None => None
      case Some(closed) => GadgetLoop(parts[1..], inbound, outbound, closed)
  }

  /** Binding every gadget in turn. */
  function BindAll(parts: seq<Part>, outbound: map<string, nat>, arena: seq<Group>): (a: seq<Group>)
    ensures |a| == |arena|
    decreases |parts|
  {
    if parts == [] then arena
    else BindAll(parts[1..], outbound, BindGroups(parts[0].name, parts[0].pins, outbound, arena))
  }

  /** Closing the unfed inbound groups of every gadget in turn. */
  function CloseAll(parts: seq<Part>, inbound: map<string, nat>, arena: seq<Group>): (r: Option<seq<Group>>)
    requires forall k :: k in inbound ==> inbound[k] < |arena|
    ensures r.Some? ==> |r.value| == |arena|
    decreases |parts|
  {
    if parts == [] then Some(arena)
    else
      match CloseGroups(parts[0].name, inbound, arena)
      case None => None
      case Some(closed) => CloseAll(parts[1..], inbound, closed)
  }

  /** The gadget loop as intended: every gadget's pins are bound before
      any input is closed, so fanIn counts every producer when it is read. */
  function GadgetLoopFixed(parts: seq<Part>, inbound: map<string, nat>, outbound: map<string, nat>, arena: seq<Group>): (r: Option<seq<Group>>)
    requires forall k :: k in inbound ==> inbound[k] < |arena|
    ensures r.Some? ==> |r.value| == |arena|
  {
    CloseAll(parts, inbound, BindAll(parts, outbound, arena))
  }

  /** The total number of output pins of `parts` bound to group `r`. */
  function Producers(parts: seq<Part>, outbound: map<string, nat>, r: nat): nat
    decreases |parts|
  {
    if parts == [] then 0
    else |OutputsInto(parts[0].name, parts[0].pins, outbound, r)| + Producers(parts[1..], outbound, r)
  }

  /** Binding every gadget raises each fanIn by the producers bound to it. */
  lemma {:induction false} BindAllCounts(parts: seq<Part>, outbound: map<string, nat>, arena: seq<Group>)
    ensures forall r :: 0 <= r < |arena| ==>
              && BindAll(parts, outbound, arena)[r].fanIn == arena[r].fanIn + Producers(parts, outbound, r)
              && BindAll(parts, outbound, arena)[r].channel == arena[r].channel
    decreases |parts|
  {
    if parts != [] {
      BindAllCounts(parts[1..], outbound, BindGroups(parts[0].name, parts[0].pins, outbound, arena));
    }
  }

  /** Closing never changes a fanIn, never reopens a channel, and only
      closes groups whose fanIn is 0 (or leaves them as they were). */
  lemma {:induction false} CloseAllEffect(parts: seq<Part>, inbound: map<string, nat>, arena: seq<Group>)
    requires forall k :: k in inbound ==> inbound[k] < |arena|
    ensures CloseAll(parts, inbound, arena).Some? ==>
              var a := CloseAll(parts, inbound, arena).value;
              forall i :: 0 <= i < |arena| ==>
                && a[i].fanIn == arena[i].fanIn
                && (a[i] == arena[i] || (arena[i].fanIn == 0 && Closable(arena[i]) && a[i] == CloseGroup(arena[i])))
    decreases |parts|
  {
    if parts != [] {
      var c := CloseGroups(parts[0].name, inbound, arena);
      if c.Some? {
        var mid := c.value;
        CloseAllEffect(parts[1..], inbound, mid);
        if CloseAll(parts, inbound, arena).Some? {
          var a := CloseAll(parts, inbound, arena).value;
          forall i | 0 <= i < |arena|
            ensures a[i].fanIn == arena[i].fanIn
            ensures a[i] == arena[i] || (arena[i].fanIn == 0 && Closable(arena[i]) && a[i] == CloseGroup(arena[i]))
          {
            var doomed := DoomedGroups(parts[0].name, inbound, arena);
            if i in doomed && Closable(arena[i]) {
              var k :| k in Doomed(parts[0].name, inbound, arena) && inbound[k] == i;
              assert mid[i] == CloseGroup(arena[i]) && !Closable(mid[i]);
            } else {
              assert mid[i] == arena[i];
            }
          }
        }
      }
    }
  }

  /** The intended property (no premature end-of-stream): in the corrected
      loop, a group that the loop closes has no producer bound to it, and
      every group keeps the fanIn of its producers. */
  lemma NoPrematureClose(parts: seq<Part>, inbound: map<string, nat>, outbound: map<string, nat>, arena: seq<Group>)
    requires forall k :: k in inbound ==> inbound[k] < |arena|
    requires forall i :: 0 <= i < |arena| ==> arena[i].fanIn == 0
    ensures GadgetLoopFixed(parts, inbound, outbound, arena).Some? ==>
              var a := GadgetLoopFixed(parts, inbound, outbound, arena).value;
              forall i :: 0 <= i < |arena| ==>
                && a[i].fanIn == Producers(parts, outbound, i)
                && (Closable(arena[i]) && !Closable(a[i]) ==> Producers(parts, outbound, i) == 0)
  {
    var bound := BindAll(parts, outbound, arena);
    BindAllCounts(parts, outbound, arena);
    CloseAllEffect(parts, inbound, bound);
  }

  /** Producers over a concatenation of gadget lists add up. */
  lemma {:induction false} ProducersAppend(xs: seq<Part>, ys: seq<Part>, outbound: map<string, nat>, r: nat)
    ensures Producers(xs + ys, outbound, r) == Producers(xs, outbound, r) + Producers(ys, outbound, r)
    decreases |xs|
  {
    if xs != [] {
      assert (xs + ys)[0] == xs[0] && (xs + ys)[1..] == xs[1..] + ys;
      ProducersAppend(xs[1..], ys, outbound, r);
    } else {
      assert xs + ys == ys;
    }
  }

  /** The loop as written keeps no count wrong in the end: when no close
      panics, every group's fanIn has grown by exactly its producers. */
  lemma {:induction false} GadgetLoopCounts(parts: seq<Part>, inbound: map<string, nat>, outbound: map<string, nat>, arena: seq<Group>)
    requires forall k :: k in inbound ==> inbound[k] < |arena|
    ensures GadgetLoop(parts, inbound, outbound, arena).Some? ==>
              forall i :: 0 <= i < |arena| ==>
                GadgetLoop(parts, inbound, outbound, arena).value[i].fanIn == arena[i].fanIn + Producers(parts, outbound, i)
    decreases |parts|
  {
    if parts != [] {
      var bound := BindGroups(parts[0].name, parts[0].pins, outbound, arena);
      CloseGroupsEffect(parts[0].name, inbound, bound);
      var c := CloseGroups(parts[0].name, inbound, bound);
      if c.Some? {
        GadgetLoopCounts(parts[1..], inbound, outbound, c.value);
      }
    }
  }

  /** One more gadget at the end of the visit order: its pins are bound
      and then its unfed inputs closed, after all the gadgets before it. */
  lemma {:induction false} GadgetLoopSnoc(ps: seq<Part>, p: Part, inbound: map<string, nat>, outbound: map<string, nat>, arena: seq<Group>)
    requires forall k :: k in inbound ==> inbound[k] < |arena|
    ensures GadgetLoop(ps + [p], inbound, outbound, arena) ==
              match GadgetLoop(ps, inbound, outbound, arena)
              case None => None
              case Some(a) => CloseGroups(p.name, inbound, BindGroups(p.name, p.pins, outbound, a))
    decreases |ps|
  {
    if ps == [] {
      assert [p][1..] == [];
      assert ps + [p] == [p];
    } else {
      assert (ps + [p])[0] == ps[0] && (ps + [p])[1..] == ps[1..] + [p];
      var bound := BindGroups(ps[0].name, ps[0].pins, outbound, arena);
      var c := CloseGroups(ps[0].name, inbound, bound);
      if c.Some? {
        GadgetLoopSnoc(ps[1..], p, inbound, outbound, c.value);
      }
    }
  }

  /** Step j of the loop as written, for every input: when the loop has
      come through the gadgets before parts[j], visiting parts[j] closes
      exactly its inbound pins whose group has no producer among
      parts[..j + 1] (counting from the initial fanIn), and panics exactly
      when one of those groups is nil or already closed. A panic before
      step j is a panic after it. */
  lemma GadgetLoopAt(parts: seq<Part>, inbound: map<string, nat>, outbound: map<string, nat>, arena: seq<Group>, j: nat)
    requires forall k :: k in inbound ==> inbound[k] < |arena|
    requires j < |parts|
    ensures GadgetLoop(parts[..j], inbound, outbound, arena).None? ==> GadgetLoop(parts[..j + 1], inbound, outbound, arena).None?
    ensures GadgetLoop(parts[..j], inbound, outbound, arena).Some? ==>
              var before := GadgetLoop(parts[..j], inbound, outbound, arena).value;
              var after := GadgetLoop(parts[..j + 1], inbound, outbound, arena);
              && (after.Some? <==>
                    forall k :: k in inbound && HasPrefix(k, parts[j].name + ".")
                                && arena[inbound[k]].fanIn + Producers(parts[..j + 1], outbound, inbound[k]) == 0
                                ==> Closable(before[inbound[k]]))
              && (after.Some? ==>
                    forall k :: k in inbound && HasPrefix(k, parts[j].name + ".")
                                && arena[inbound[k]].fanIn + Producers(parts[..j + 1], outbound, inbound[k]) == 0
                                ==> after.value[inbound[k]].channel.Some? && after.value[inbound[k]].channel.value.closed)
  {
    var p := parts[j];
    assert parts[..j + 1] == parts[..j] + [p];
    GadgetLoopSnoc(parts[..j], p, inbound, outbound, arena);
    var prior := GadgetLoop(parts[..j], inbound, outbound, arena);
    if prior.Some? {
      var before := prior.value;
      GadgetLoopCounts(parts[..j], inbound, outbound, arena);
      var bound := BindGroups(p.name, p.pins, outbound, before);
      CloseGroupsEffect(p.name, inbound, bound);
      forall i | 0 <= i < |arena|
        ensures bound[i].fanIn == arena[i].fanIn + Producers(parts[..j + 1], outbound, i)
      {
        ProducersAppend(parts[..j], [p], outbound, i);
        assert [p][1..] == [];
      }
    }
  }

  /** An input that nothing feeds and no gadget produces into, whose group
      has a nil channel, makes the loop as written panic, whatever the
      visit order: close(nil) at circuit.go:264. */
  lemma {:induction false} UnfedNilPanics(parts: seq<Part>, inbound: map<string, nat>, outbound: map<string, nat>, arena: seq<Group>, j: nat, k: string)
    requires forall x :: x in inbound ==> inbound[x] < |arena|
    requires j < |parts| && k in inbound && HasPrefix(k, parts[j].name + ".")
    requires arena[inbound[k]] == Group(0, None)
    requires Producers(parts, outbound, inbound[k]) == 0
    ensures GadgetLoop(parts, inbound, outbound, arena).None?
    decreases j
  {
    var r := inbound[k];
    var bound := BindGroups(parts[0].name, parts[0].pins, outbound, arena);
    assert bound[r] == arena[r];
    CloseGroupsEffect(parts[0].name, inbound, bound);
    var c := CloseGroups(parts[0].name, inbound, bound);
    if j > 0 && c.Some? {
      assert c.value[r] == arena[r];
      UnfedNilPanics(parts[1..], inbound, outbound, c.value, j - 1, k);
    }
  }

  /** The two gadgets of the example: B with input In, A with output Out,
      visited in the order B, A, and the wire A.Out/B.In of capacity 1. */
  function ExampleParts(): seq<Part> {
    [Part("B", map["In" := InputPin]), Part("A", map["Out" := OutputPin])]
  }

  /** Binding B changes nothing; binding A raises the fanIn of the one
      group; only B.In is ever a candidate for closing. */
  lemma ExampleSteps(arena: seq<Group>)
    requires |arena| == 1
    ensures BindGroups("B", ExampleParts()[0].pins, map["A.Out" := 0], arena) == arena
    ensures BindGroups("A", ExampleParts()[1].pins, map["A.Out" := 0], arena) == [arena[0].(fanIn := arena[0].fanIn + 1)]
    ensures Doomed("A", map["B.In" := 0], arena) == {}
    ensures Doomed("B", map["B.In" := 0], arena) == if arena[0].fanIn == 0 then {"B.In"} else {}
  {
    var outbound := map["A.Out" := 0];
    assert PinName("B", "In") == "B.In" && PinName("A", "Out") == "A.Out";
    assert OutputsInto("B", ExampleParts()[0].pins, outbound, 0) == {};
    assert OutputsInto("A", ExampleParts()[1].pins, outbound, 0) == {"Out"};
    assert HasPrefix("B.In", "B.") && !HasPrefix("B.In", "A.");
  }

  /** The gadget loop as written closes an input that a producer is bound
      to: B's input is closed before A is bound, so the group ends with
      fanIn 1 on a closed channel. */
  lemma GadgetLoopClosesEarly()
    ensures GadgetLoop(ExampleParts(), map["B.In" := 0], map["A.Out" := 0], [Group(0, Some(MakeChan(1)))])
            == Some([Group(1, Some(Chan(1, [], true)))])
  {
    var b, a := ExampleParts()[0], ExampleParts()[1];
    var inbound, outbound := map["B.In" := 0], map["A.Out" := 0];
    var arena := [Group(0, Some(MakeChan(1)))];
    ExampleSteps(arena);
    assert DoomedGroups("B", inbound, arena) == {0};
    var c1 := [Group(0, Some(Chan(1, [], true)))];
    var x1 := CloseGroups("B", inbound, arena);
    assert forall k :: k in Doomed("B", inbound, arena) ==> Closable(arena[inbound[k]]);
    assert x1.Some? && |x1.value| == 1 && x1.value[0] == c1[0];
    assert x1.value == c1;
    ExampleSteps(c1);
    var b2 := [Group(1, Some(Chan(1, [], true)))];
    assert DoomedGroups("A", inbound, b2) == {};
    var x2 := CloseGroups("A", inbound, b2);
    assert x2.Some? && |x2.value| == 1 && x2.value[0] == b2[0];
    assert x2.value == b2;
    assert ExampleParts()[1..] == [a] && [a][1..] == [];
    assert GadgetLoop([a], inbound, outbound, c1) == GadgetLoop([], inbound, outbound, b2);
  }

  /** On the same example the corrected loop binds both gadgets first and
      then closes nothing: the group keeps its producer and stays open. */
  lemma GadgetLoopFixedKeepsOpen()
    ensures GadgetLoopFixed(ExampleParts(), map["B.In" := 0], map["A.Out" := 0], [Group(0, Some(MakeChan(1)))])
            == Some([Group(1, Some(MakeChan(1)))])
  {
    var b, a := ExampleParts()[0], ExampleParts()[1];
    var inbound, outbound := map["B.In" := 0], map["A.Out" := 0];
    var arena := [Group(0, Some(MakeChan(1)))];
    ExampleSteps(arena);
    assert ExampleParts()[1..] == [a] && [a][1..] == [];
    var all := [Group(1, Some(MakeChan(1)))];
    ExampleSteps(all);
    assert BindAll([a], outbound, arena) == all;
    assert DoomedGroups("B", inbound, all) == {} && DoomedGroups("A", inbound, all) == {};
    var x3 := CloseGroups("B", inbound, all);
    assert x3.Some? && |x3.value| == 1 && x3.value[0] == all[0];
    assert x3.value == all;
    var x4 := CloseGroups("A", inbound, all);
    assert x4.Some? && |x4.value| == 1 && x4.value[0] == all[0];
    assert x4.value == all;
    assert CloseAll([a], inbound, all) == CloseAll([], inbound, all);
  }

  /** With a wire of capacity 0 the group of B.In has a nil channel: the
      loop as written panics on close(nil) when it visits B before A, and
      the corrected loop binds A first and closes nothing. */
  lemma GadgetLoopClosesNil()
    ensures GadgetLoop(ExampleParts(), map["B.In" := 0], map["A.Out" := 0], [Group(0, None)]).None?
    ensures GadgetLoopFixed(ExampleParts(), map["B.In" := 0], map["A.Out" := 0], [Group(0, None)]) == Some([Group(1, None)])
  {
    var a := ExampleParts()[1];
    var inbound, outbound := map["B.In" := 0], map["A.Out" := 0];
    var arena := [Group(0, None)];
    ExampleSteps(arena);
    assert "B.In" in Doomed("B", inbound, arena) && !Closable(arena[0]);
    assert ExampleParts()[1..] == [a] && [a][1..] == [];
    var all := [Group(1, None)];
    ExampleSteps(all);
    assert BindAll([a], outbound, arena) == all;
    var x3 := CloseGroups("B", inbound, all);
    assert x3.Some? && |x3.value| == 1 && x3.value[0] == all[0];
    assert x3.value == all;
    var x4 := CloseGroups("A", inbound, all);
    assert x4.Some? && |x4.value| == 1 && x4.value[0] == all[0];
    assert x4.value == all;
    assert CloseAll([a], inbound, all) == CloseAll([], inbound, all);
  }

  /** A list of gadgets none of which has an output bound to group r
      produces nothing into it. */
  lemma {:induction false} ProducersNone(parts: seq<Part>, outbound: map<string, nat>, r: nat)
    requires forall i :: 0 <= i < |parts| ==> OutputsInto(parts[i].name, parts[i].pins, outbound, r) == {}
    ensures Producers(parts, outbound, r) == 0
    decreases |parts|
  {
    if parts != [] {
      ProducersNone(parts[1..], outbound, r);
    }
  }

  /** The outer circuit of the nested example in flow_test.go:87-96: pipes
      p1 and p2 around the circuit g, whose pins In and Out are labels. */
  function NestedParts(): seq<Part> {
    [Part("p1", map["In" := InputPin, "Out" := OutputPin]),
     Part("g", map["In" := LabelPin("g1.In"), "Out" := LabelPin("g2.Out")]),
     Part("p2", map["In" := InputPin, "Out" := OutputPin])]
  }

  /** Its groups: p1.In (fed), g.In (wire p1.Out/g.In) and p2.In (wire
      g.Out/p2.In); both wires have capacity 0. Since Run never binds the
      label pin g.Out, nothing produces into p2.In, whose group has a nil
      channel: the loop as written panics in every visit order. */
  lemma NestedCircuitPanics(order: seq<Part>, arena: seq<Group>)
    requires |arena| == 3 && arena[2] == Group(0, None)
    requires forall i :: 0 <= i < |order| ==> order[i] in NestedParts()
    requires NestedParts()[2] in order
    ensures GadgetLoop(order, map["p1.In" := 0, "g.In" := 1, "p2.In" := 2], map["p1.Out" := 1, "g.Out" := 2], arena).None?
  {
    var inbound := map["p1.In" := 0, "g.In" := 1, "p2.In" := 2];
    var outbound := map["p1.Out" := 1, "g.Out" := 2];
    var ps := NestedParts();
    assert PinName("p1", "Out") == "p1.Out" && PinName("p2", "Out") == "p2.Out";
    assert OutputsInto(ps[0].name, ps[0].pins, outbound, 2) == {};
    assert OutputsInto(ps[1].name, ps[1].pins, outbound, 2) == {};
    assert OutputsInto(ps[2].name, ps[2].pins, outbound, 2) == {};
    ProducersNone(order, outbound, 2);
    var j :| 0 <= j < |order| && order[j] == ps[2];
    assert HasPrefix("p2.In", "p2.");
    UnfedNilPanics(order, inbound, outbound, arena, j, "p2.In");
  }
}
