/** Circuits (circuit.go): a circuit keeps its gadgets, wires, feeds and
    labels in maps that the declaration methods update; initPins resolves
    wires into shared records and channel groups, and Run builds its own
    groups, pushes the feeds, binds every gadget's pins, closes the inputs
    nothing feeds and counts finished gadgets on the admin channel.
    Go's map iteration order is a parameter wherever it matters. */
module Circuits {
  import opened Runtime
  import opened GoStrings
  import opened CircuitSpec
  import opened RunSteps
  import opened Bindings

  /** Gadget: a named node of a circuit with its pin table. `wired` holds
      what Run sets each input and output pin to. */
  class Gadget {
    var name: string
    var pins: map<string, PinKind>
    var regType: string
    var wired: map<string, Binding>

    constructor (pins: map<string, PinKind>)
      ensures name == "" && this.pins == pins && regType == "" && wired == map[]
    {
      name := "";
      this.pins := pins;
      regType := "";
      wired := map[];
    }
  }

  /** How Run ends: a close of a nil or closed channel panics; otherwise
      Run returns once `consumed` admin messages have brought every gadget's
      end, or waits forever after the `consumed` messages of its trace. */
  datatype Ending = ClosePanic | Returned(consumed: nat) | Waiting(consumed: nat)

  /** Registry: gadget type name to the pin table of a new instance. */
  type Registry = map<string, map<string, PinKind>>

  class Circuit {
    /** The embedded Gadget: the circuit's own name and pins. */
    const gadget: Gadget
    var gadgets: map<string, Gadget>
    var wires: map<string, int>
    var feeds: map<string, seq<Memo>>
    var labels: map<string, string>
    /** c.groups: pin to group, indices into `groupArena`. */
    var groups: map<string, nat>
    var groupArena: seq<Group>

    /** Every wire key holds the '/' that Connect puts in it. */
    ghost predicate Valid()
      reads this
    {
      forall w :: w in wires ==> '/' in w
    }

    /** NewCircuit: no gadgets, wires, feeds or labels. */
    constructor ()
      ensures Valid()
      ensures gadgets == map[] && wires == map[] && feeds == map[] && labels == map[]
      ensures groups == map[] && groupArena == []
      ensures fresh(gadget) && gadget.pins == map[]
    {
      gadget := new Gadget(map[]);
      gadgets := map[];
      wires := map[];
      feeds := map[];
      labels := map[];
      groups := map[];
      groupArena := [];
    }

    /** Connect: the wire from+"/"+to gets `capacity`, replacing any
        capacity the same wire had. */
    method Connect(from: string, to: string, capacity: int)
      requires Valid()
      modifies this
      ensures Valid()
      ensures wires == old(wires)[WireKey(from, to) := capacity]
      ensures gadgets == old(gadgets) && feeds == old(feeds) && labels == old(labels)
      ensures groups == old(groups) && groupArena == old(groupArena)
    {
      assert WireKey(from, to)[|from|] == '/';
      wires := wires[WireKey(from, to) := capacity];
    }

    /** Feed: `m` joins the back of the messages fed to `pin`. */
    method Feed(pin: string, m: Memo)
      requires Valid()
      modifies this
      ensures Valid()
      ensures feeds.Keys == old(feeds).Keys + {pin}
      ensures feeds[pin] == (if pin in old(feeds) then old(feeds)[pin] else []) + [m]
      ensures forall k :: k in old(feeds) && k != pin ==> feeds[k] == old(feeds)[k]
      ensures gadgets == old(gadgets) && wires == old(wires) && labels == old(labels)
      ensures groups == old(groups) && groupArena == old(groupArena)
    {
      var queued := if pin in feeds then feeds[pin] else [];
      feeds := feeds[pin := queued + [m]];
    }

    /** Label: map an external pin to an internal one. An external name
        with a '.' is fatal (`ok` false, the process exits), and nothing
        changes. */
    method Label(external: string, internal: string) returns (ok: bool)
      requires Valid()
      modifies this
      ensures Valid()
      ensures ok <==> '.' !in external
      ensures ok ==> labels == old(labels)[external := internal]
      ensures !ok ==> labels == old(labels)
      ensures gadgets == old(gadgets) && wires == old(wires) && feeds == old(feeds)
      ensures groups == old(groups) && groupArena == old(groupArena)
    {
      if IndexRune(external, '.') >= 0 {
        return false;
      }
      labels := labels[external := internal];
      ok := true;
    }

    /** AddCircuitry for a gadget whose pin table is already built: it takes
        the name it is added under and goes into the gadget map. */
    method AddCircuitry(name: string, g: Gadget) returns (added: Gadget)
      requires Valid()
      modifies this, g
      ensures Valid()
      ensures added == g && g.name == name
      ensures g.pins == old(g.pins) && g.regType == old(g.regType) && g.wired == old(g.wired)
      ensures gadgets == old(gadgets)[name := g]
      ensures wires == old(wires) && feeds == old(feeds) && labels == old(labels)
      ensures groups == old(groups) && groupArena == old(groupArena)
    {
      g.name := name;
      gadgets := gadgets[name := g];
      added := g;
    }

    /** Add: a new gadget of a registered type under `name`, remembering
        its type; an unregistered type leaves the circuit unchanged. */
    method Add(name: string, typeName: string, registry: Registry) returns (added: bool)
      requires Valid()
      modifies this
      ensures Valid()
      ensures added <==> typeName in registry
      ensures !added ==> gadgets == old(gadgets)
      ensures added ==>
        && name in gadgets && fresh(gadgets[name])
        && gadgets == old(gadgets)[name := gadgets[name]]
        && gadgets[name].name == name && gadgets[name].pins == registry[typeName]
        && gadgets[name].regType == typeName && gadgets[name].wired == map[]
      ensures wires == old(wires) && feeds == old(feeds) && labels == old(labels)
      ensures groups == old(groups) && groupArena == old(groupArena)
    {
      if typeName !in registry {
        return false;
      }
      var g := new Gadget(registry[typeName]);
      g := AddCircuitry(name, g);
      g.regType := typeName;
      added := true;
    }

    /** initPins (circuit.go:39-118): every label becomes a pin of the
        circuit's own gadget holding the internal name; the shared ginfo
        records are computed and then dropped, as nothing reads them; and
        c.groups is rebuilt, one group per fed or wired pin, each big
        enough for its feed and for the wires into it. The iteration
        orders of the Go maps are parameters. */
    method InitPins(feedOrder: seq<string>, wireOrder: seq<string>, pinOrder: seq<string>)
      requires Valid()
      requires Enumerates(feedOrder, feeds.Keys)
      requires Enumerates(wireOrder, wires.Keys)
      requires forall w :: w in wires ==> From(w) in pinOrder && To(w) in pinOrder
      modifies this, gadget
      ensures Valid()
      ensures gadget.pins == old(gadget.pins) + map k | k in labels :: LabelPin(labels[k])
      ensures gadget.name == old(gadget.name) && gadget.regType == old(gadget.regType) && gadget.wired == old(gadget.wired)
      ensures gadgets == old(gadgets) && wires == old(wires) && feeds == old(feeds) && labels == old(labels)
      ensures groups.Keys == feeds.Keys + Froms(wires) + Tos(wires)
      ensures forall k :: k in groups ==> groups[k] < |groupArena|
      ensures forall r :: 0 <= r < |groupArena| ==> groupArena[r].fanIn == 0 && Unused(groupArena[r].channel)
      ensures forall k :: k in feeds ==> Cap(groupArena[groups[k]].channel) >= |feeds[k]|
      ensures forall w :: w in wires ==> Cap(groupArena[groups[To(w)]].channel) >= wires[w]
    {
      var gmap, infos := Ginfos(wires, feeds, wireOrder, feedOrder, pinOrder);
      var g, arena := InitGroups(feeds, wires, feedOrder, wireOrder);
      groups, groupArena := g, arena;
      // the label loop changes the pin table and nothing else
      ghost var wiring := (groups, groupArena, feeds, wires);
      gadget.pins := gadget.pins + map k | k in labels :: LabelPin(labels[k]);
      assert (groups, groupArena, feeds, wires) == wiring;
    }

    /** AddCircuitry for a child circuit (circuit.go:132-137): the child's
        gadget takes `name` and joins the gadget map, then the child runs
        initPins. */
    method AddCircuit(name: string, child: Circuit, feedOrder: seq<string>, wireOrder: seq<string>, pinOrder: seq<string>)
      returns (added: Gadget)
      requires Valid() && child.Valid() && child != this
      requires Enumerates(feedOrder, child.feeds.Keys)
      requires Enumerates(wireOrder, child.wires.Keys)
      requires forall w :: w in child.wires ==> From(w) in pinOrder && To(w) in pinOrder
      modifies this, child, child.gadget
      ensures Valid() && child.Valid()
      ensures added == child.gadget && added.name == name
      ensures added.pins == old(child.gadget.pins) + map k | k in child.labels :: LabelPin(child.labels[k])
      ensures gadgets == old(gadgets)[name := added]
      ensures wires == old(wires) && feeds == old(feeds) && labels == old(labels)
      ensures groups == old(groups) && groupArena == old(groupArena)
      ensures child.groups.Keys == child.feeds.Keys + Froms(child.wires) + Tos(child.wires)
      ensures forall k :: k in child.groups ==> child.groups[k] < |child.groupArena|
      ensures forall k :: k in child.feeds ==> Cap(child.groupArena[child.groups[k]].channel) >= |child.feeds[k]|
      ensures forall w :: w in child.wires ==> Cap(child.groupArena[child.groups[To(w)]].channel) >= child.wires[w]
    {
      added := AddCircuitry(name, child.gadget);
      child.InitPins(feedOrder, wireOrder, pinOrder);
    }

    /** The gadget loop of Run (circuit.go:216-280), as written: the
        gadgets, in the order `gadgetOrder` lists their names, each have
        their pins bound and then their inputs that nothing feeds so far
        closed. `parts` are the gadgets as the loop sees them; `ok` is
        false when a close panics. */
    method StartGadgets(gadgetOrder: seq<string>, inbound: map<string, nat>, outbound: map<string, nat>, launched: seq<Group>)
      returns (ok: bool, arena: seq<Group>, ghost parts: seq<Part>)
      requires Enumerates(gadgetOrder, gadgets.Keys)
      requires forall k :: k in inbound ==> inbound[k] < |launched|
      requires forall a, b :: a in inbound && b in inbound && inbound[a] == inbound[b] ==> a == b
      requires forall k :: k in outbound ==> outbound[k] < |launched|
      modifies (set k | k in gadgets :: gadgets[k])`wired
      ensures |parts| == |gadgetOrder|
      ensures forall i :: 0 <= i < |gadgetOrder| ==>
                parts[i] == Part(gadgets[gadgetOrder[i]].name, gadgets[gadgetOrder[i]].pins)
      ensures forall k :: k in gadgets ==> gadgets[k].name == old(gadgets[k].name) && gadgets[k].pins == old(gadgets[k].pins)
      ensures ok ==> forall k :: k in gadgets ==>
                gadgets[k].wired == old(gadgets[k].wired) + Wiring(gadgets[k].name, gadgets[k].pins, inbound, outbound)
      ensures ok <==> GadgetLoop(parts, inbound, outbound, launched).Some?
      ensures ok ==> arena == GadgetLoop(parts, inbound, outbound, launched).value
    {
      var gs := GadgetsIn(gadgetOrder);
      EveryGadgetIn(gadgetOrder, gs);
      parts := PartsOf(gs);
      ok, arena := LaunchGadgets(gs, parts, inbound, outbound, launched);
      forall k | ok && k in gadgets
        ensures gadgets[k].wired == old(gadgets[k].wired) + Wiring(gadgets[k].name, gadgets[k].pins, inbound, outbound)
      {
        assert gadgets[k] in gs;
      }
    }

    /** The gadgets whose names `order` lists, in that order: Go's range
        over c.gadgets. */
    function GadgetsIn(order: seq<string>): (gs: seq<Gadget>)
      reads this
      requires forall i :: 0 <= i < |order| ==> order[i] in gadgets
      ensures |gs| == |order|
      ensures forall i :: 0 <= i < |order| ==> gs[i] == gadgets[order[i]]
    {
      seq(|order|, i requires 0 <= i < |order| && order[i] in gadgets reads this => gadgets[order[i]])
    }

    /** When `order` enumerates the gadget names, every gadget is visited. */
    lemma EveryGadgetIn(order: seq<string>, gs: seq<Gadget>)
      requires Enumerates(order, gadgets.Keys)
      requires |gs| == |order| && forall i :: 0 <= i < |order| ==> gs[i] == gadgets[order[i]]
      ensures forall k :: k in gadgets ==> gadgets[k] in gs
      ensures (set g | g in gs) == (set k | k in gadgets :: gadgets[k])
    {
      forall k | k in gadgets
        ensures gadgets[k] in gs
      {
        var i :| 0 <= i < |order| && order[i] == k;
        assert gs[i] == gadgets[k];
      }
      forall g | g in gs
        ensures g in (set k | k in gadgets :: gadgets[k])
      {
        var i :| 0 <= i < |gs| && gs[i] == g;
        assert g == gadgets[order[i]];
      }
    }

    /** Run (circuit.go:171-300). Groups for the feeds and wires are built
        (`inbound`, `outbound`) and the feeds pushed into them (`launched`);
        the gadgets are started as StartGadgets says; the circuit then
        reads the admin messages `trace` until every gadget has reported
        its end, writing a Lost line for every other message. A close that
        panics ends Run with ClosePanic; a trace that runs out first leaves
        Run Waiting forever. */
    method Run(feedOrder: seq<string>, wireOrder: seq<string>, gadgetOrder: seq<string>, trace: seq<AdminMsg>, console: Console)
      returns (ending: Ending, inbound: map<string, nat>, outbound: map<string, nat>, arena: seq<Group>,
               ghost parts: seq<Part>, launched: seq<Group>)
      requires Valid()
      requires Enumerates(feedOrder, feeds.Keys)
      requires Enumerates(wireOrder, wires.Keys)
      requires Enumerates(gadgetOrder, gadgets.Keys)
      modifies console, (set k | k in gadgets :: gadgets[k])`wired
      ensures inbound.Keys == feeds.Keys + Tos(wires) && outbound.Keys == Froms(wires)
      ensures forall k :: k in inbound ==> inbound[k] < |launched|
      ensures forall k :: k in outbound ==> outbound[k] < |launched|
      ensures Idle(launched)
      ensures forall k :: k in feeds ==>
                var ch := launched[inbound[k]].channel;
                ch.Some? && ch.value.queue == feeds[k] && !ch.value.closed
      ensures |parts| == |gadgetOrder|
      ensures forall i :: 0 <= i < |gadgetOrder| ==>
                parts[i] == Part(gadgets[gadgetOrder[i]].name, gadgets[gadgetOrder[i]].pins)
      ensures !ending.ClosePanic? ==> forall k :: k in gadgets ==>
                gadgets[k].wired == old(gadgets[k].wired) + Wiring(gadgets[k].name, gadgets[k].pins, inbound, outbound)
      ensures ending.ClosePanic? <==> GadgetLoop(parts, inbound, outbound, launched).None?
      ensures !ending.ClosePanic? ==> arena == GadgetLoop(parts, inbound, outbound, launched).value
      ensures ending.ClosePanic? ==> console.lines == old(console.lines)
      ensures ending.Returned? ==>
                && ending.consumed <= |trace|
                && DoneCount(trace[..ending.consumed]) == |gadgetOrder|
                && (forall m :: 0 <= m < ending.consumed ==> DoneCount(trace[..m]) < |gadgetOrder|)
                && console.lines == old(console.lines) + LostReports(LostOf(trace[..ending.consumed]))
      ensures ending.Waiting? ==>
                && ending.consumed == |trace| && DoneCount(trace) < |gadgetOrder|
                && console.lines == old(console.lines) + LostReports(LostOf(trace))
    {
      inbound, outbound, launched := FedGroups(feeds, wires, feedOrder, wireOrder);
      var ok;
      ok, arena, parts := StartGadgets(gadgetOrder, inbound, outbound, launched);
      if !ok {
        ending := ClosePanic;
        return;
      }
      var consumed, finished := AdminLoop(|gadgetOrder|, trace, console);
      if finished {
        ending := Returned(consumed);
      } else {
        assert trace[..consumed] == trace;
        ending := Waiting(consumed);
      }
    }
  }

  // ---------------------------------------------------------------------
  // initPins: the ginfo records

  /** One wire of the first loop of initPins took (gmap, infos) to
      (gmap', infos'): both ends have records, and share from's (a new one
      numbered |infos| if from had none); every pin that shared from's or
      to's record now shares the joined one, whose capacity is the largest
      of the wire's and the two old ones and whose feed is from's; no other
      record changed. */
  ghost predicate LinkedOne(gmap: map<string, nat>, infos: seq<GInfo>, from: string, to: string, wcap: int,
                            gmap': map<string, nat>, infos': seq<GInfo>)
  {
    && (forall k :: k in gmap ==> gmap[k] < |infos|)
    && gmap'.Keys == gmap.Keys + {from, to}
    && |infos'| == |infos| + (if from in gmap then 0 else 1)
    && (forall k :: k in gmap' ==> gmap'[k] < |infos'|)
    && gmap'[from] == gmap'[to]
    && gmap'[from] == (if from in gmap then gmap[from] else |infos|)
    && (forall k :: k in gmap ==>
          gmap'[k] == (if (from in gmap && gmap[k] == gmap[from]) || (to in gmap && gmap[k] == gmap[to])
                       then gmap'[from] else gmap[k]))
    && infos'[gmap'[to]].capa >= wcap
    && (from in gmap ==> infos'[gmap'[to]].capa >= infos[gmap[from]].capa)
    && (to in gmap ==> infos'[gmap'[to]].capa >= infos[gmap[to]].capa)
    && (|| infos'[gmap'[to]].capa == wcap
        || (from in gmap && infos'[gmap'[to]].capa == infos[gmap[from]].capa)
        || (to in gmap && infos'[gmap'[to]].capa == infos[gmap[to]].capa))
    && infos'[gmap'[to]].feed == (if from in gmap then infos[gmap[from]].feed else 0)
    && (forall i :: 0 <= i < |infos| && i != gmap'[to] ==> infos'[i] == infos[i])
  }

  /** One wire of the first loop of initPins (circuit.go:47-70): `from`
      gets a record (with capacity `wcap`) if it has none, `to` shares
      from's if it has none, and when the two records differ every pin of
      to's record moves to from's (the merge loop, visiting pins in
      `pinOrder`, with to's record taken once before the loop); then the
      record's capacity is raised to the largest capacity seen. */
  method LinkWire(gmap: map<string, nat>, infos: seq<GInfo>, from: string, to: string, wcap: int, pinOrder: seq<string>)
    returns (gmap': map<string, nat>, infos': seq<GInfo>)
    requires forall k :: k in gmap ==> gmap[k] < |infos|
    requires forall k :: k in gmap ==> k in pinOrder
    requires from in pinOrder && to in pinOrder
    ensures LinkedOne(gmap, infos, from, to, wcap, gmap', infos')
  {
    gmap', infos' := gmap, infos;
    var w := wcap;
    if from !in gmap' {
      gmap' := gmap'[from := |infos'|];
      infos' := infos' + [GInfo(wcap, 0)];
    }
    if to !in gmap' {
      gmap' := gmap'[to := gmap'[from]];
    }
    if gmap'[to] != gmap'[from] {
      // merge to into from, tracking the largest capacity
      ghost var before := gmap';
      var target, dest := gmap'[to], gmap'[from];
      var i := 0;
      while i < |pinOrder|
        invariant 0 <= i <= |pinOrder|
        invariant gmap'.Keys == before.Keys
        invariant forall k :: k in before ==>
                    gmap'[k] == (if before[k] == target && k in pinOrder[..i] then dest else before[k])
        invariant w >= wcap && (w == wcap || w == infos'[target].capa)
        invariant to in pinOrder[..i] ==> w >= infos'[target].capa
      {
        var k := pinOrder[i];
        if k in gmap' && gmap'[k] == target {
          if infos'[target].capa > w {
            w := infos'[target].capa;
          }
          gmap' := gmap'[k := dest];
        }
        TakeOneMore(pinOrder, i);
        i := i + 1;
      }
      assert pinOrder[..i] == pinOrder;
    }
    var r := gmap'[to];
    if w > infos'[r].capa {
      infos' := infos'[r := infos'[r].(capa := w)];
    }
  }

  /** The pins at either end of some wire. */
  function Endpoints(wires: map<string, int>): set<string>
    requires forall w :: w in wires ==> '/' in w
  {
    (set w | w in wires :: From(w)) + (set w | w in wires :: To(w))
  }

  /** After the first `n` wires of `ws` are linked: every pin with a
      record is an end of some wire and in `pinOrder`, the two pins of each
      linked wire share one record whose capacity is at least the wire's,
      and no feed is counted yet. */
  ghost predicate MergedUpTo(wires: map<string, int>, ws: seq<string>, pinOrder: seq<string>, n: nat,
                             gmap: map<string, nat>, infos: seq<GInfo>)
    requires forall w :: w in wires ==> '/' in w
  {
    && n <= |ws|
    && (forall k :: k in gmap ==> k in Endpoints(wires) && k in pinOrder && gmap[k] < |infos|)
    && (forall i :: 0 <= i < n ==>
          && ws[i] in wires
          && From(ws[i]) in gmap && To(ws[i]) in gmap
          && gmap[From(ws[i])] == gmap[To(ws[i])]
          && infos[gmap[To(ws[i])]].capa >= wires[ws[i]])
    && (forall r :: 0 <= r < |infos| ==> infos[r].feed == 0)
  }

  /** Linking wire `n` extends MergedUpTo by one wire. */
  lemma MergedStep(wires: map<string, int>, ws: seq<string>, pinOrder: seq<string>, n: nat,
                   gmap: map<string, nat>, infos: seq<GInfo>, gmap': map<string, nat>, infos': seq<GInfo>)
    requires forall w :: w in wires ==> '/' in w
    requires n < |ws| && ws[n] in wires
    requires forall w :: w in wires ==> From(w) in pinOrder && To(w) in pinOrder
    requires MergedUpTo(wires, ws, pinOrder, n, gmap, infos)
    requires LinkedOne(gmap, infos, From(ws[n]), To(ws[n]), wires[ws[n]], gmap', infos')
    ensures MergedUpTo(wires, ws, pinOrder, n + 1, gmap', infos')
  {
    var w := ws[n];
    assert From(w) in Endpoints(wires) && To(w) in Endpoints(wires);
    forall i | 0 <= i < n + 1
      ensures From(ws[i]) in gmap' && To(ws[i]) in gmap'
      ensures gmap'[From(ws[i])] == gmap'[To(ws[i])]
      ensures infos'[gmap'[To(ws[i])]].capa >= wires[ws[i]]
    {
      if i < n {
        var r := gmap[To(ws[i])];
        if r != gmap'[To(w)] {
          assert infos'[r] == infos[r];
        }
      }
    }
  }

  /** Once every wire is linked, the records cover exactly the ends of the
      wires and every wire's ends share one. */
  lemma MergedAll(wires: map<string, int>, ws: seq<string>, pinOrder: seq<string>, gmap: map<string, nat>, infos: seq<GInfo>)
    requires forall w :: w in wires ==> '/' in w
    requires Enumerates(ws, wires.Keys)
    requires MergedUpTo(wires, ws, pinOrder, |ws|, gmap, infos)
    ensures gmap.Keys == Endpoints(wires)
    ensures forall w :: w in wires ==>
              gmap[From(w)] == gmap[To(w)] && infos[gmap[To(w)]].capa >= wires[w]
  {
    forall k | k in Endpoints(wires)
      ensures k in gmap
    {
      var w :| w in wires && (k == From(w) || k == To(w));
      var i :| 0 <= i < |ws| && ws[i] == w;
    }
    forall w | w in wires
      ensures gmap[From(w)] == gmap[To(w)] && infos[gmap[To(w)]].capa >= wires[w]
    {
      var i :| 0 <= i < |ws| && ws[i] == w;
    }
  }

  /** The first loop of initPins, over the wires in `wireOrder`: afterwards
      the two pins of every wire share one record, whose capacity is at
      least the wire's, and no feed is counted yet. */
  method MergeWires(wires: map<string, int>, wireOrder: seq<string>, pinOrder: seq<string>)
    returns (gmap: map<string, nat>, infos: seq<GInfo>)
    requires forall w :: w in wires ==> '/' in w
    requires Enumerates(wireOrder, wires.Keys)
    requires forall w :: w in wires ==> From(w) in pinOrder && To(w) in pinOrder
    ensures gmap.Keys == Endpoints(wires)
    ensures forall k :: k in gmap ==> gmap[k] < |infos|
    ensures forall w :: w in wires ==>
              gmap[From(w)] == gmap[To(w)] && infos[gmap[To(w)]].capa >= wires[w]
    ensures forall i :: 0 <= i < |infos| ==> infos[i].feed == 0
  {
    gmap, infos := map[], [];
    var j := 0;
    while j < |wireOrder|
      invariant MergedUpTo(wires, wireOrder, pinOrder, j, gmap, infos)
    {
      var w := wireOrder[j];
      ghost var (g0, i0) := (gmap, infos);
      gmap, infos := LinkWire(gmap, infos, From(w), To(w), wires[w], pinOrder);
      MergedStep(wires, wireOrder, pinOrder, j, g0, i0, gmap, infos);
      j := j + 1;
    }
    MergedAll(wires, wireOrder, pinOrder, gmap, infos);
  }

  /** Pin `k` went from (gmap, infos) to (gmap', infos') by one step of the
      feed loop of initPins: it got a new record if it had none, the
      record's feed grew by `n`, and its capacity was raised to the feed
      if the feed exceeded it; nothing else changed. */
  ghost predicate FedOne(gmap: map<string, nat>, infos: seq<GInfo>, k: string, n: nat, gmap': map<string, nat>, infos': seq<GInfo>)
  {
    && gmap'.Keys == gmap.Keys + {k}
    && (forall x :: x in gmap ==> gmap'[x] == gmap[x])
    && (k !in gmap ==> gmap'[k] == |infos| && |infos'| == |infos| + 1)
    && (k in gmap ==> |infos'| == |infos|)
    && (forall x :: x in gmap' ==> gmap'[x] < |infos'|)
    && (var prior := if k in gmap && gmap[k] < |infos| then infos[gmap[k]] else GInfo(0, 0);
        && infos'[gmap'[k]].feed == prior.feed + n
        && infos'[gmap'[k]].capa == (if prior.feed + n > prior.capa then prior.feed + n else prior.capa))
    && (forall r :: 0 <= r < |infos| && r != gmap'[k] ==> infos'[r] == infos[r])
  }

  /** One step of the feed loop of initPins (circuit.go:73-80). */
  method FeedRecord(gmap: map<string, nat>, infos: seq<GInfo>, k: string, n: nat)
    returns (gmap': map<string, nat>, infos': seq<GInfo>)
    requires forall x :: x in gmap ==> gmap[x] < |infos|
    ensures FedOne(gmap, infos, k, n, gmap', infos')
  {
    gmap', infos' := gmap, infos;
    if k !in gmap' {
      gmap' := gmap'[k := |infos'|];
      infos' := infos' + [GInfo(0, 0)];
    }
    var f := gmap'[k];
    var rec := infos'[f];
    rec := rec.(feed := rec.feed + n);
    if rec.feed > rec.capa {
      rec := rec.(capa := rec.feed);
    }
    infos' := infos'[f := rec];
  }

  /** After the feed loop has visited the pins `done`, starting from
      (gmap0, infos0): the fed pins have records, old pins keep theirs,
      new records come after the old ones, each record's feed counts the
      feeds of its visited pins, and each capacity is the old one or the
      feed, and at least the feed for every visited pin. */
  ghost predicate FeedsCounted(gmap0: map<string, nat>, infos0: seq<GInfo>, feeds: map<string, seq<Memo>>, done: seq<string>,
                               gmap: map<string, nat>, infos: seq<GInfo>)
  {
    && (forall k :: k in gmap ==> k in gmap0 || k in feeds)
    && (forall k :: k in done ==> k in gmap)
    && (forall k :: k in gmap0 ==> k in gmap && gmap[k] == gmap0[k])
    && (forall k :: k in gmap && k !in gmap0 ==> gmap[k] >= |infos0|)
    && |infos| >= |infos0|
    && (forall k :: k in gmap ==> gmap[k] < |infos|)
    && (forall r :: 0 <= r < |infos| ==>
          infos[r].feed == (if r < |infos0| then infos0[r].feed else 0) + FeedTotal(done, feeds, gmap, r))
    && (forall r :: 0 <= r < |infos| ==>
          var base := if r < |infos0| then infos0[r].capa else 0;
          infos[r].capa >= base && (infos[r].capa == base || infos[r].capa == infos[r].feed))
    && (forall k :: k in done ==> infos[gmap[k]].capa >= infos[gmap[k]].feed)
  }

  /** One more step of the feed loop keeps FeedsCounted. */
  lemma FeedsCountedStep(gmap0: map<string, nat>, infos0: seq<GInfo>, feeds: map<string, seq<Memo>>, done: seq<string>,
                         gmap: map<string, nat>, infos: seq<GInfo>, k: string, gmap': map<string, nat>, infos': seq<GInfo>)
    requires FeedsCounted(gmap0, infos0, feeds, done, gmap, infos)
    requires k in feeds && k !in done
    requires FedOne(gmap, infos, k, |feeds[k]|, gmap', infos')
    ensures FeedsCounted(gmap0, infos0, feeds, done + [k], gmap', infos')
  {
    FeedTotalsStep(infos0, feeds, done, gmap, infos, k, gmap', infos');
  }

  /** One more step of the feed loop adds the pin's feed to the total of
      its record, and to no other. */
  lemma FeedTotalsStep(infos0: seq<GInfo>, feeds: map<string, seq<Memo>>, done: seq<string>,
                       gmap: map<string, nat>, infos: seq<GInfo>, k: string, gmap': map<string, nat>, infos': seq<GInfo>)
    requires forall x :: x in done ==> x in gmap
    requires forall x :: x in gmap ==> gmap[x] < |infos|
    requires |infos| >= |infos0|
    requires forall r :: 0 <= r < |infos| ==>
               infos[r].feed == (if r < |infos0| then infos0[r].feed else 0) + FeedTotal(done, feeds, gmap, r)
    requires k in feeds && k !in done
    requires FedOne(gmap, infos, k, |feeds[k]|, gmap', infos')
    ensures forall r :: 0 <= r < |infos'| ==>
              infos'[r].feed == (if r < |infos0| then infos0[r].feed else 0) + FeedTotal(done + [k], feeds, gmap', r)
  {
    if k !in gmap {
      FeedTotalUnused(done, feeds, gmap, |infos|);
    }
    var all := done + [k];
    assert all[..|done|] == done && all[|done|] == k;
    forall r | 0 <= r < |infos'|
      ensures infos'[r].feed == (if r < |infos0| then infos0[r].feed else 0) + FeedTotal(all, feeds, gmap', r)
    {
      FeedTotalStep(all, |done|, feeds, gmap', r);
      assert all[..|done| + 1] == all;
      FeedTotalFrame(done, feeds, gmap', gmap, r);
    }
  }

  /** The feed loop of initPins, over the fed pins in `feedOrder`: every
      fed pin has a record (a new one if no wire gave it one, numbered after
      the old records), every old pin keeps its record, each record's feed
      grows by the feed lengths of its fed pins, and each record's capacity
      is raised to its feed where the feed exceeds it. */
  method AddFeeds(gmap: map<string, nat>, infos: seq<GInfo>, feeds: map<string, seq<Memo>>, feedOrder: seq<string>)
    returns (gmap': map<string, nat>, infos': seq<GInfo>)
    requires forall k :: k in gmap ==> gmap[k] < |infos|
    requires Enumerates(feedOrder, feeds.Keys)
    ensures gmap'.Keys == gmap.Keys + feeds.Keys
    ensures forall k :: k in gmap ==> gmap'[k] == gmap[k]
    ensures forall k :: k in feeds && k !in gmap ==> gmap'[k] >= |infos|
    ensures |infos'| >= |infos| && forall k :: k in gmap' ==> gmap'[k] < |infos'|
    ensures forall r :: 0 <= r < |infos'| ==>
              infos'[r].feed == (if r < |infos| then infos[r].feed else 0) + FeedTotal(feedOrder, feeds, gmap', r)
    ensures forall r :: 0 <= r < |infos'| ==>
              var base := if r < |infos| then infos[r].capa else 0;
              infos'[r].capa >= base && (infos'[r].capa == base || infos'[r].capa == infos'[r].feed)
    ensures forall k :: k in feeds ==> infos'[gmap'[k]].capa >= infos'[gmap'[k]].feed
  {
    gmap', infos' := gmap, infos;
    var i := 0;
    while i < |feedOrder|
      invariant 0 <= i <= |feedOrder|
      invariant FeedsCounted(gmap, infos, feeds, feedOrder[..i], gmap', infos')
    {
      var k := feedOrder[i];
      ghost var (g0, i0) := (gmap', infos');
      gmap', infos' := FeedRecord(gmap', infos', k, |feeds[k]|);
      TakeOneMore(feedOrder, i);
      FeedsCountedStep(gmap, infos, feeds, feedOrder[..i], g0, i0, k, gmap', infos');
      i := i + 1;
    }
    assert feedOrder[..i] == feedOrder;
  }

  /** The ginfo pass of initPins (circuit.go:45-81): the two ends of every
      wire share one record, large enough for the wire, and every fed
      pin's record is large enough for its feed. */
  method Ginfos(wires: map<string, int>, feeds: map<string, seq<Memo>>, wireOrder: seq<string>, feedOrder: seq<string>,
                pinOrder: seq<string>)
    returns (gmap: map<string, nat>, infos: seq<GInfo>)
    requires forall w :: w in wires ==> '/' in w
    requires Enumerates(wireOrder, wires.Keys)
    requires Enumerates(feedOrder, feeds.Keys)
    requires forall w :: w in wires ==> From(w) in pinOrder && To(w) in pinOrder
    ensures gmap.Keys == Endpoints(wires) + feeds.Keys
    ensures forall k :: k in gmap ==> gmap[k] < |infos|
    ensures forall w :: w in wires ==> gmap[From(w)] == gmap[To(w)] && infos[gmap[To(w)]].capa >= wires[w]
    ensures forall k :: k in feeds ==> infos[gmap[k]].capa >= infos[gmap[k]].feed >= |feeds[k]|
  {
    var gmap0, infos0 := MergeWires(wires, wireOrder, pinOrder);
    gmap, infos := AddFeeds(gmap0, infos0, feeds, feedOrder);
    forall k | k in feeds
      ensures infos[gmap[k]].feed >= |feeds[k]|
    {
      FeedTotalCounts(feedOrder, feeds, gmap, k);
    }
  }

  // ---------------------------------------------------------------------
  // Run: binding the pins of gadget objects

  /** The pin binding of one gadget object in Run (circuit.go:222-256):
      its input and output pins are set to their bindings, as
      BindGadgetPins computes them, and nothing else of it changes. */
  method BindPins(g: Gadget, inbound: map<string, nat>, outbound: map<string, nat>, arena: seq<Group>)
    returns (arena': seq<Group>)
    requires forall k :: k in outbound ==> outbound[k] < |arena|
    modifies g`wired
    ensures g.name == old(g.name) && g.pins == old(g.pins) && g.regType == old(g.regType)
    ensures g.wired == old(g.wired) + Wiring(g.name, g.pins, inbound, outbound)
    ensures arena' == BindGroups(g.name, g.pins, outbound, arena)
  {
    var wired;
    arena', wired := BindGadgetPins(g.name, g.pins, inbound, outbound, arena, g.wired);
    g.wired := wired;
  }

  /** Map union with the same right-hand side twice adds nothing. */
  lemma UnionTwice<K, V>(m: map<K, V>, w: map<K, V>)
    ensures (m + w) + w == m + w
  {
  }

  /** The name and pin table of each gadget, in order. */
  ghost function PartsOf(gs: seq<Gadget>): (parts: seq<Part>)
    reads set g | g in gs
    ensures |parts| == |gs|
    ensures forall i :: 0 <= i < |gs| ==> parts[i] == Part(gs[i].name, gs[i].pins)
  {
    if gs == [] then [] else [Part(gs[0].name, gs[0].pins)] + PartsOf(gs[1..])
  }

  /** The wiring of each gadget in `gs` once the gadgets in `done` have
      had their pins bound: `w0` holds each gadget's wiring before. */
  ghost predicate WiredAfter(gs: seq<Gadget>, done: set<Gadget>, w0: map<Gadget, map<string, Binding>>,
                             inbound: map<string, nat>, outbound: map<string, nat>)
    reads set g | g in gs
  {
    forall g {:trigger g in gs} :: g in gs ==>
      g in w0 && g.wired == if g in done then w0[g] + Wiring(g.name, g.pins, inbound, outbound) else w0[g]
  }

  /** One pass of Run's gadget loop (circuit.go:222-266): the pins of
      gadget g, the first of the `rest` still to visit, are bound, and then
      its inbound pins that no output feeds yet are closed. `ok` is false
      when a close panics, which ends the whole loop (`whole`) with a
      panic; otherwise the loop goes on over rest[1..] from `arena'`. */
  method BindThenClose(g: Gadget, ghost gs: seq<Gadget>, ghost rest: seq<Part>,
                       ghost done: set<Gadget>, ghost w0: map<Gadget, map<string, Binding>>, ghost whole: Option<seq<Group>>,
                       inbound: map<string, nat>, outbound: map<string, nat>, arena: seq<Group>)
    returns (ok: bool, arena': seq<Group>)
    requires g in gs && rest != [] && rest[0] == Part(g.name, g.pins)
    requires WiredAfter(gs, done, w0, inbound, outbound)
    requires forall k :: k in inbound ==> inbound[k] < |arena|
    requires forall a, b :: a in inbound && b in inbound && inbound[a] == inbound[b] ==> a == b
    requires forall k :: k in outbound ==> outbound[k] < |arena|
    requires GadgetLoop(rest, inbound, outbound, arena) == whole
    modifies g`wired
    ensures WiredAfter(gs, done + {g}, w0, inbound, outbound)
    ensures !ok ==> whole.None?
    ensures ok ==> |arena'| == |arena| && GadgetLoop(rest[1..], inbound, outbound, arena') == whole
  {
    if g in done {
      UnionTwice(w0[g], Wiring(g.name, g.pins, inbound, outbound));
    }
    var bound := BindPins(g, inbound, outbound, arena);
    ok, arena' := CloseInputs(g.name, inbound, bound);
  }

  /** Run's gadget loop as written (circuit.go:217-267): each gadget in
      turn is bound and then has its unfed inputs closed. The groups are
      those GadgetLoop gives, or `ok` is false when a close panics; when
      no close panics every gadget's pins have their bindings. */
  method LaunchGadgets(gs: seq<Gadget>, ghost parts: seq<Part>, inbound: map<string, nat>, outbound: map<string, nat>, arena: seq<Group>)
    returns (ok: bool, arena': seq<Group>)
    requires |parts| == |gs| && forall i :: 0 <= i < |gs| ==> parts[i] == Part(gs[i].name, gs[i].pins)
    requires forall k :: k in inbound ==> inbound[k] < |arena|
    requires forall a, b :: a in inbound && b in inbound && inbound[a] == inbound[b] ==> a == b
    requires forall k :: k in outbound ==> outbound[k] < |arena|
    modifies (set g | g in gs)`wired
    ensures ok ==> forall g :: g in gs ==> g.wired == old(g.wired) + Wiring(g.name, g.pins, inbound, outbound)
    ensures ok <==> GadgetLoop(parts, inbound, outbound, arena).Some?
    ensures ok ==> arena' == GadgetLoop(parts, inbound, outbound, arena).value
  {
    ghost var done: set<Gadget> := {};
    ghost var w0: map<Gadget, map<string, Binding>> := map g | g in gs :: g.wired;
    ghost var whole := GadgetLoop(parts, inbound, outbound, arena);
    ghost var rest := parts;
    arena' := arena;
    var i := 0;
    while i < |gs|
      invariant i <= |gs| && |arena'| == |arena|
      invariant WiredAfter(gs, done, w0, inbound, outbound)
      invariant forall j :: 0 <= j < i ==> gs[j] in done
      invariant rest == parts[i..]
      invariant GadgetLoop(rest, inbound, outbound, arena') == whole
    {
      ok, arena' := BindThenClose(gs[i], gs, rest, done, w0, whole, inbound, outbound, arena');
      done := done + {gs[i]};
      if !ok {
        return;
      }
      rest := rest[1..];
      i := i + 1;
    }
    forall g | g in gs
      ensures g.wired == old(g.wired) + Wiring(g.name, g.pins, inbound, outbound)
    {
      var j :| 0 <= j < |gs| && gs[j] == g;
      assert g in done && w0[g] == old(g.wired);
    }
    ok := true;
  }
}
