# flow: a verified model of the circuit engine

This is a Dafny model of the core of `flow`, a Go engine for flow-based
programming. Independent *gadgets* exchange *memos* over channels. A
*circuit* holds four things:

- gadgets, by name;
- wires `from/to` with a capacity;
- feeds: memos queued for an input pin before anything runs;
- labels: external names for inner pins.

`Run` resolves the wiring into channels and binds every gadget's pins. It
then closes the inputs that nothing will ever write to, launches the
gadgets, and waits on the admin channel until every gadget has reported
that it is done.

The model has these modules:

- **GoStrings** (`go_strings.dfy`): the `strings` functions the core
  relies on, which are `IndexRune`, `IndexAny`, `HasPrefix`, `Split` and
  `Join`. It also proves that `Split` and `Join` are inverses.
- **Runtime** (`runtime.dfy`): memos and Go channels as values. A channel
  has a capacity, a queue and a closed flag. The console is an object that
  collects the "Lost" reports.
- **Flow** (`flow.dfy`, after `flow/flow.go`):
  - the reference-counted `connection` as a class;
  - the discarding `fakeSink`;
  - the pin-name splitters `workerPart` and `portPart`;
  - the `Transformer` gadget;
  - `Check`.
- **CircuitSpec** (`circuit_spec.dfy`): the pure parts of `circuit.go`:
  - wire keys;
  - the `gmap` merge as written;
  - feed totals;
  - the "last wire from a pin wins" rule;
  - the pin wiring a gadget receives;
  - counting on the admin channel.
- **Circuits** (`circuit.dfy`):
  - the `Gadget` and `Circuit` classes and their declaration methods
    (`NewCircuit`, `Add`, `AddCircuitry`, `Connect`, `Feed`, `Label`);
  - `initPins`;
  - `Run`.
- **RunSteps** (`run.dfy`): the steps of `Run` and `initPins` that build
  wire groups and push the feeds. It also holds the admin loop.
- **Bindings** (`binding.dfy`): binding pins to groups and closing inputs
  with no producers. This module covers both the loop as written and the
  corrected loop.
- **Serial** (`serial/serial.go`):
  - the `SketchType` gadget, which forwards every memo and recognises
    "[name...]" banner lines;
  - the `TimeStamp` gadget, which puts a time memo before every input memo.

The model makes these choices:

- **Map iteration order.** Go map iteration order is a parameter: a
  sequence that enumerates the keys. A result that does not depend on the
  order is proved for every order.
- **Wire groups.** Group pointers become indices into an arena
  `seq<Group>`, so two pins share a group exactly when they hold the same
  index. `gmap` records in `initPins` are indices in the same way.
- **Unbound channels.** A nil channel is `None`. It arises for a wire of
  capacity 0 into a pin that has no feed.
- **Goroutines.** A gadget's goroutine is modelled as one drain of the
  memos already queued on its input. The admin channel is a trace of
  messages given as a parameter.
- **Pin types.** The reflection on pin types becomes a `PinKind` per pin:
  input, output, or a label string.

Where the code and its own comments disagree, the model follows the code:

- **Premature close.** The comment at `circuit.go:259` says the loop
  closes the channels "which have no outputs feeding in", and
  `flow/flow.go:62` describes a connection that is closed when its count of
  senders drops to 0. The gadget loop as written closes a gadget's inputs
  with fanIn 0 right after binding that gadget, before the gadgets visited
  later bind their outputs. `Circuits.Circuit.Run` models the loop as
  written (`Bindings.GadgetLoop`). The corrected loop is
  `Bindings.GadgetLoopFixed`. See Findings.
- **Label pins.** `Run` never binds label pins: it logs an error at
  `circuit.go:225-237`. In the nested example of `flow_test.go:87-96`, the
  outer circuit `g` has the wire `g.Out/p2.In` of capacity 0, and `g.Out`
  is a label pin. So nothing produces into `p2.In`, and its group has a nil
  channel. `Run` ends with `ClosePanic` exactly when `GadgetLoop` fails, and
  `Bindings.NestedCircuitPanics` proves that `GadgetLoop` fails on these
  groups in every visit order. The expected output at `flow_test.go:97-100`
  is therefore not what the code as written produces.
- **Name checks.** `Connect` and `Feed` store any pin name without checking
  it (`circuit.go:140-147`), and so do the models of them.

## Model

| member | source | states |
|---|---|---|
| GoStrings.IndexRune | flow/flow.go:90 | the result is -1 exactly when the rune is absent; otherwise it is the position of its first occurrence |
| GoStrings.HasPrefixSplits | serial/serial.go:71 | s starts with the prefix exactly when s is the prefix followed by the rest of s |
| GoStrings.IndexAny | serial/serial.go:72 | the result is -1 exactly when no character of the set occurs; otherwise it is the first position holding one |
| GoStrings.Split | circuit.go:48 | there is at least one piece, and more than one exactly when the separator occurs |
| GoStrings.SplitPiecesFree | circuit.go:48-50 | no piece of a split contains the separator |
| GoStrings.JoinSplit | circuit.go:48 | joining the pieces of a split gives back the original string |
| GoStrings.SplitJoin | circuit.go:141 | splitting a join of separator-free pieces gives back the pieces |
| Runtime.LostReportsPointwise | flow/flow.go:82-84 | one "Lost" report per memo, in order, each with the memo's type name and the memo itself |
| Runtime.LostReportsAppend | flow/flow.go:82-84 | the reports for two runs of memos are the reports of the first followed by those of the second |
| Runtime.LostReport | flow/flow.go:83 | the report for one lost memo carries its Go type name and the memo; its content is stated by LostReportsPointwise |
| Runtime.SendBuffered | circuit.go:206 | a send into a channel with room never overfills its buffer |
| Flow.CloseStep | flow/flow.go:72-77 | one Close takes one sender off; it closes the channel exactly when the last sender leaves; a closed channel stays closed; the queue is untouched |
| Flow.StaysClosed | flow/flow.go:72-77 | once the channel is closed, further Close calls only lower the sender count |
| Flow.ClosedAfterExactlyN | flow/flow.go:72-77 | after k Close calls on an open link with n senders, the channel is closed exactly when k >= n |
| Flow.ClosesOnlyOnce | flow/flow.go:72-77 | the channel goes from open to closed at the n-th Close call and at no other |
| Flow.Connection.constructor | flow/flow.go:63-66 | a new connection has an empty open channel of the given capacity and the given sender count |
| Flow.Connection.Send | flow/flow.go:68-70 | the memo is appended to the channel queue; the sender count is unchanged |
| Flow.Connection.Close | flow/flow.go:72-77 | the connection's new state is one CloseStep from its old state |
| Flow.FakeSink.Send | flow/flow.go:82-84 | exactly one "Lost" report for the memo is added to the console |
| Flow.FakeSink.Close | flow/flow.go:86 | closing a discarding output does nothing: the method has an empty frame |
| Flow.ExtendedTwice | flow/flow.go:31-34 | emitting xs and then ys to an output has the same effect as emitting xs + ys |
| Flow.Emit | flow/flow.go:31-34 | sending on a wired output queues the memo on its channel; on a discarding output it prints one "Lost" report |
| Flow.WorkerPart | flow/flow.go:89-96 | the result is the dot-free prefix of the pin name that stops at its first dot |
| Flow.PortPart | flow/flow.go:99-102 | a name without a dot is its own port; otherwise the name is worker + "." + port |
| Flow.PinNameRoundTrip | flow/flow.go:89-102 | for a dot-free worker name, splitting worker + "." + port gives back worker and port |
| Flow.Apply | flow/flow.go:57-59 | a transformer sends one memo for each memo it receives |
| Flow.ApplyPointwise | flow/flow.go:56-60 | the transformed stream has one output per input memo, and output i is fun(input i) |
| Flow.ApplyStep | flow/flow.go:56-60 | transforming one more memo appends its image to the output |
| Flow.Transformer.constructor | flow/flow.go:44-54 | the gadget keeps the given function, input and output |
| Flow.Transformer.Run | flow/flow.go:56-60 | the input queue is drained, and exactly the images of the drained memos are emitted to Out, in order |
| Flow.Check | flow/flow.go:105-109 | the caller proceeds exactly when there is no error; otherwise it panics with that error |
| CircuitSpec.From | circuit.go:48-49 | a key without a slash is its own from-part |
| CircuitSpec.To | circuit.go:50 | the receiving end of a wire key holds no slash |
| CircuitSpec.WireKey | circuit.go:141 | every key Connect stores holds a slash, so both ends of it can be read back |
| CircuitSpec.WireEndsPlain | circuit.go:48-50 | neither end of a wire key contains a slash |
| CircuitSpec.WireKeyRoundTrip | circuit.go:141 | for slash-free pin names the key built by Connect splits back into the same from and to |
| CircuitSpec.MergeAsWritten | circuit.go:57-65 | the merge loop as written, with its running maximum `wcap`: it re-points records but never adds or drops a pin, every record stays in range, and the tracked capacity never falls below the one passed in |
| CircuitSpec.MergeAsWrittenSettled | circuit.go:57-65 | once `to` already points at the target record, the rest of the loop moves nothing, and the tracked capacity is either unchanged or the target's capacity |
| CircuitSpec.MergeAsWrittenMoves | circuit.go:57-65 | when the range first reaches `to` at position t, exactly the pins that shared to's record and come no later than `to` move to from's record; all other pins keep theirs; the tracked capacity covers to's old record and is one of wcap, to's old capacity or the target's |
| CircuitSpec.MergeAsWrittenStrandsPin | circuit.go:57-65 | concrete case: a pin visited after `to` that shared to's record is left behind (Findings) |
| CircuitSpec.JoinAsWritten | circuit.go:57-66 | the merge step of one wire keeps the set of pins and every record index in range |
| CircuitSpec.JoinAsWrittenEnds | circuit.go:57-66 | after the merge step, both ends of the wire point at from's record, the tracked capacity is at least the wire's and, if the records differed, at least to's old record's; every other pin keeps its record or has joined from's |
| CircuitSpec.WireAsWritten | circuit.go:51-69 | one wire as written: the pins become the old pins plus both ends, a record is added exactly when `from` had none, and every index stays in range |
| CircuitSpec.WireAsWrittenJoins | circuit.go:51-69 | after one wire as written, both ends share from's record (a new one if from had none), whose capacity is at least the wire's and at least what either end's record held; no other record changes; every other pin keeps its record or has joined theirs |
| CircuitSpec.FeedTotalStep | circuit.go:72-80 | counting one more feed key adds its feed length when it maps to the record |
| CircuitSpec.FeedTotalFrame | circuit.go:72-80 | the feed total of a record depends only on where the counted keys point |
| CircuitSpec.FeedTotalUnused | circuit.go:72-80 | a record no counted key points at has feed total 0 |
| CircuitSpec.FeedTotalCounts | circuit.go:72-80 | a record's feed total covers every feed of a pin that maps to it |
| CircuitSpec.Cap | circuit.go:109 | the capacity of a channel, and 0 for a nil channel |
| CircuitSpec.LastFrom | circuit.go:195 | the index found is before the bound and is a wire from the pin, or -1 |
| CircuitSpec.LastFromIsLast | circuit.go:183-196 | no later wire comes from the same pin, and -1 means no wire comes from it |
| CircuitSpec.LastFromAt | circuit.go:183-196 | a wire from the pin with no later one from the pin is the one found |
| CircuitSpec.SizedUpToAll | circuit.go:183-194 | after all wires, an inbound group's channel is large enough for every wire into the pin (nil only when all those capacities are <= 0) |
| CircuitSpec.PinNameInjective | circuit.go:240 | within one gadget, distinct pin names give distinct qualified names |
| CircuitSpec.Wiring | circuit.go:238-256 | every input and output pin is bound, labels are not; an input gets its inbound group or the null channel; an output gets its outbound group or the admin sink |
| CircuitSpec.Doomed | circuit.go:261-262 | the inputs of a gadget that Run closes: its inbound pins whose group has fanIn 0 |
| CircuitSpec.DoomedShrinks | circuit.go:247-262 | binding more producers never dooms another pin, and a pin whose group gains a producer is no longer doomed |
| CircuitSpec.DoneCount | circuit.go:283-296 | the number of Done messages never exceeds the trace length |
| CircuitSpec.TraceSplits | circuit.go:283-296 | every admin message is either a Done or a stray memo |
| Circuits.Gadget.constructor | circuit.go:122-127 | a gadget made by a registry constructor has the type's pins and no name, type or bindings yet |
| Circuits.Circuit.constructor | circuit.go:19-26 | a new circuit has empty gadget, wire, feed and label maps and a pinless gadget of its own |
| Circuits.Circuit.Connect | circuit.go:140-142 | the wire "from/to" is recorded with the capacity; a repeated pair keeps the last capacity; nothing else changes |
| Circuits.Circuit.Feed | circuit.go:145-147 | the memo is appended to the pin's feed list, and other feeds are unchanged |
| Circuits.Circuit.Label | circuit.go:151-156 | the label is recorded exactly when the external name has no dot; otherwise nothing changes |
| Circuits.Circuit.AddCircuitry | circuit.go:132-137 | the gadget is named and stored under the name; nothing else changes |
| Circuits.Circuit.Add | circuit.go:121-129 | a gadget is added exactly when the type is registered, with the registry's pins and the type name |
| Circuits.Circuit.InitPins | circuit.go:39-118 | labels become label pins; every fed or wired pin gets a group; every group is fresh with fanIn 0; each group can hold its pin's feeds and every wire into it |
| Circuits.Circuit.AddCircuit | circuit.go:132-137 | a nested circuit is initialised (as InitPins) and then added as a named gadget |
| Circuits.Circuit.StartGadgets | circuit.go:217-280 | the loop as written: it panics exactly when GadgetLoop fails; otherwise every gadget gets its Wiring and the groups end as GadgetLoop computes |
| Circuits.Circuit.GadgetsIn | circuit.go:217 | the gadgets listed in a visit order, one per name |
| Circuits.Circuit.EveryGadgetIn | circuit.go:217 | an order that enumerates the gadget names visits every gadget |
| Circuits.Circuit.Run | circuit.go:171-300 | the inbound/outbound maps cover feeds and wire ends; fed inputs hold their feeds; every gadget gets its Wiring; a close panic happens exactly when the loop as written (GadgetLoop) fails, and then nothing is printed; otherwise Run returns after exactly as many Done messages as gadgets, printing "Lost" for each stray memo before that, or waits when the trace runs out |
| Circuits.LinkWire | circuit.go:51-69 | corrected merge: both ends of the wire share one record with capacity >= the wire's; every pin that shared either end's record moves along; other pins stay |
| Circuits.MergedStep | circuit.go:47-70 | linking the next wire keeps every earlier wire's ends joined with enough capacity |
| Circuits.MergedAll | circuit.go:47-70 | after all wires, gmap holds exactly the wire ends, and both ends of each wire share a record of at least its capacity |
| Circuits.MergeWires | circuit.go:47-70 | the wire loop of initPins with the corrected merge: the same facts as MergedAll, and no feed counted yet |
| Circuits.FeedRecord | circuit.go:73-80 | a fed pin's record (new if the pin is unmapped) grows its feed count and capacity by the feed length |
| Circuits.FeedsCountedStep | circuit.go:72-81 | handling one more feed key keeps the record mapping invariant |
| Circuits.FeedTotalsStep | circuit.go:72-81 | after one more feed key, each record's feed equals its initial feed plus the feed total of the keys mapped to it |
| Circuits.AddFeeds | circuit.go:72-81 | all fed pins are mapped; old mappings stay; each record's feed is its FeedTotal; a fed pin's record has capacity >= feed |
| Circuits.Ginfos | circuit.go:45-81 | with the corrected merge (LinkWire): gmap covers wire ends and feeds; wire ends share a record of at least the wire's capacity; a fed pin's record holds capacity >= feed >= its feed length |
| Circuits.BindPins | circuit.go:222-257 | a gadget's bindings grow by its Wiring, and its output groups' fanIn grow as BindGroups says |
| Circuits.BindThenClose | circuit.go:222-266 | one pass of the gadget loop: the gadget's pins are bound and its unfed inputs closed; its bindings grow by its Wiring, the others are as before; a panic is a failure of the whole loop, and otherwise the rest of the loop gives the same result as before |
| Circuits.LaunchGadgets | circuit.go:217-280 | bind, then close, gadget by gadget: it panics exactly when GadgetLoop fails; otherwise every gadget gets its Wiring and the arena is GadgetLoop's |
| RunSteps.FeedGroups | circuit.go:177-179 | each fed pin gets its own fresh group, whose channel's capacity is its feed count |
| RunSteps.FeedChannel | circuit.go:205-207 | pushing a pin's feed into a channel with room queues all of it, in order, within capacity |
| RunSteps.PushFeeds | circuit.go:203-208 | every fed pin's group queue grows by exactly its feed; groups without a feed are unchanged |
| RunSteps.RunWire | circuit.go:183-196 | one wire step keeps every pin index inside the arena and keeps all groups unstarted |
| RunSteps.RunWireSteps | circuit.go:183-196 | one wire step registers the to-pin (new group or kept), points the from-pin at it, and grows the channel to the wire's capacity |
| RunSteps.SizedTargetStep | circuit.go:192-194 | growing the target group's channel to the wire's capacity keeps it large enough for every wire so far |
| RunSteps.SizedOtherStep | circuit.go:188-194 | a wire into another pin does not affect this pin's sizing |
| RunSteps.KeysStep | circuit.go:188-195 | after one more wire, inbound covers its to-pin and outbound its from-pin, and owners stay consistent |
| RunSteps.SizedStep | circuit.go:188-194 | after one more wire, every inbound group is large enough for the wires so far |
| RunSteps.LastStep | circuit.go:195 | after one more wire, each from-pin points at the group of its last wire so far |
| RunSteps.RunWiresFrom | circuit.go:183-196 | the wire loop keeps pin indices inside the arena and groups unstarted |
| RunSteps.WiresSized | circuit.go:183-196 | the whole wire loop keeps the key and sizing invariants |
| RunSteps.WiresLast | circuit.go:183-196 | the whole wire loop keeps "from-pin points at its last wire's group" |
| RunSteps.RunWires | circuit.go:183-196 | the wire loop method computes RunWiresFrom from an empty outbound map |
| RunSteps.RunGroups | circuit.go:172-196 | inbound = feeds + wire targets, outbound = wire sources, distinct inbound pins own distinct groups, every group sized, each source at its last wire, all groups unstarted |
| RunSteps.RunWiresMeet | circuit.go:183-196 | the wire loop's result meets RunGroups' postcondition |
| RunSteps.WiresDone | circuit.go:183-196 | the invariants at the end of the wire loop give the key sets, distinct groups, sizing and last-wire facts |
| RunSteps.InboundKeysDone | circuit.go:188-190 | inbound ends up holding exactly the fed pins and wire targets |
| RunSteps.OutboundKeysDone | circuit.go:195 | outbound ends up holding exactly the wire sources |
| RunSteps.RunSizedDone | circuit.go:192-194 | every inbound group is sized for all wires into its pin |
| RunSteps.RunLastDone | circuit.go:195 | every wire source points at the group of its last wire in the visit order |
| RunSteps.FedGroups | circuit.go:172-208 | the groups of Run before binding: the RunGroups facts, with each fed group's queue equal to its feed and fanIn 0 |
| RunSteps.InitWire | circuit.go:105-114 | one wire step of initPins' group loop keeps the group map and arena consistent |
| RunSteps.InitCapStep | circuit.go:105-111 | one more wire keeps every fed pin and wire target with a group of enough capacity |
| RunSteps.InitFreshStep | circuit.go:105-111 | one more wire keeps all groups fresh with fanIn 0 |
| RunSteps.InitViaStep | circuit.go:112-114 | a pin that is only a wire source shares the group of a wire's target |
| RunSteps.InitWires | circuit.go:100-115 | the group loop of initPins keeps the init invariant to the end |
| RunSteps.InitGroups | circuit.go:92-115 | groups cover feeds and wire ends; all fresh; feed and wire capacities met; sources share a target's group |
| RunSteps.InitKeysDone | circuit.go:100-115 | the group map holds exactly the fed pins and the wire ends |
| RunSteps.InitCapDone | circuit.go:109-111 | every wire's target group has at least the wire's capacity |
| RunSteps.InitViaDone | circuit.go:112-114 | every pin that is only a wire source shares its group with a wire's target |
| RunSteps.TraceStep | circuit.go:283-296 | one more admin message raises the Done count for a Done, or adds the memo to the lost list |
| RunSteps.AdminLoop | circuit.go:283-296 | the loop stops at the first point where Done messages reach the gadget count, printing "Lost" for each stray memo before it; otherwise it consumes the whole trace |
| Bindings.BindGroups | circuit.go:247-251 | binding a gadget's outputs keeps the arena's size |
| Bindings.BindCountsOutputs | circuit.go:247-251 | each group's fanIn grows by the number of the gadget's output pins bound to it |
| Bindings.BindPin | circuit.go:238-256 | binding one pin sets exactly its Wiring entry, and an output pin adds one to its group's fanIn |
| Bindings.BindStep | circuit.go:223-257 | binding one more pin keeps the bound-so-far invariant |
| Bindings.BoundAll | circuit.go:223-257 | when no pins are left, the bindings are the gadget's Wiring and the arena is BindGroups |
| Bindings.BindGadgetPins | circuit.go:223-257 | the pin loop in any order gives the Wiring and the BindGroups arena |
| Bindings.CloseGroups | circuit.go:259-266 | closing a gadget's inputs keeps the arena's size |
| Bindings.CloseGroupsEffect | circuit.go:259-266 | it succeeds exactly when every doomed input (this gadget's inputs with fanIn 0) has an open, non-nil channel; those are closed and all other groups are unchanged |
| Bindings.CloseInputs | circuit.go:259-266 | the close loop in any order matches CloseGroups, and panics exactly when it fails |
| Bindings.GadgetLoop | circuit.go:217-267 | the loop as written, which binds and then closes gadget by gadget, keeps the arena's size; what it closes and when it fails is stated by GadgetLoopAt and GadgetLoopCounts |
| Bindings.BindAll | circuit.go:222-257 | binding all gadgets keeps the arena's size |
| Bindings.CloseAll | circuit.go:259-266 | closing for all gadgets keeps the arena's size |
| Bindings.GadgetLoopFixed | circuit.go:217-267 | the corrected loop, which binds every gadget and then closes, keeps the arena's size |
| Bindings.BindAllCounts | circuit.go:247-251 | after binding all gadgets, each group's fanIn has grown by its number of producers |
| Bindings.CloseAllEffect | circuit.go:259-266 | closing keeps every fanIn, and closes only groups with fanIn 0 |
| Bindings.NoPrematureClose | circuit.go:259-266 | corrected loop: each group's fanIn equals its producer count, and a group is closed only if it has no producer |
| Bindings.ProducersAppend | circuit.go:247-251 | the producers of a group in two runs of gadgets add up |
| Bindings.ProducersNone | circuit.go:247-251 | gadgets none of which has an output bound to a group produce nothing into it |
| Bindings.GadgetLoopCounts | circuit.go:217-267 | when the loop as written does not panic, each group's fanIn has grown by exactly its producer count |
| Bindings.GadgetLoopSnoc | circuit.go:217-267 | one more gadget at the end of the visit order is bound and then closes its unfed inputs, after all earlier gadgets; a panic stays a panic |
| Bindings.GadgetLoopAt | circuit.go:217-267 | at step j, for every input: a panic before the step is a panic after it; otherwise the step succeeds exactly when every input of gadget j with no producer among the gadgets visited so far has an open non-nil channel, and then those inputs are closed |
| Bindings.UnfedNilPanics | circuit.go:259-266 | an input that no gadget produces into and whose group has a nil channel makes the loop as written panic, in every visit order |
| Bindings.ExampleSteps | circuit.go:240-266 | on the two-gadget example, binding A counts its output, binding B changes nothing, and only B.In is doomed while its fanIn is 0 |
| Bindings.GadgetLoopClosesEarly | circuit.go:259-266 | concrete case: the loop as written closes B.In although A's output is then bound to it (Findings) |
| Bindings.GadgetLoopClosesNil | circuit.go:259-266 | concrete case: with a wire of capacity 0 the loop as written panics on close(nil) when B is visited before A, while the corrected loop succeeds (Findings) |
| Bindings.NestedCircuitPanics | flow_test.go:87-96 | on the outer circuit of the nested example, the loop as written panics in every visit order, because p2.In has a nil channel and no producer |
| Bindings.GadgetLoopFixedKeepsOpen | circuit.go:259-266 | on the same example the corrected loop leaves B.In open with fanIn 1 |
| Serial.IsMarker | serial/serial.go:71 | the banner test: a string memo that starts with "[" and holds a "]" |
| Serial.IsMarkerShape | serial/serial.go:71 | a banner has its "[" first and a "]" after it, so it has at least two characters |
| Serial.NameEndFrom | serial/serial.go:72 | the delimiter scan stops inside the string |
| Serial.NameEndFromFirst | serial/serial.go:72 | the scan stops at the first '.' or ']' from its start |
| Serial.NameEnd | serial/serial.go:72 | for a banner line, the end of the name lies after the '[' and inside the line |
| Serial.NameEndIsIndexAny | serial/serial.go:72 | the end of the name is strings.IndexAny(s, ".]") |
| Serial.NameEndFirst | serial/serial.go:72 | the end of the name is the first '.' or ']' after the '[' |
| Serial.SketchTag | serial/serial.go:72 | the tag is "Sketch-" followed by the name |
| Serial.SketchTagShape | serial/serial.go:72 | the tag starts with "Sketch-"; its name has no '.' or ']'; the line is "[" + name + the rest from the delimiter |
| Serial.SketchTagOfMarker | serial/serial.go:71-72 | a line "[" + name + rest, where rest starts at a delimiter, is a banner and its tag is "Sketch-" + name |
| Serial.EmptyMarkerTag | serial/serial.go:71-72 | "[]" is a banner with tag "Sketch-" |
| Serial.BannerTag | serial/serial.go:71-72 | "[RF12demo.10]" is a banner with tag "Sketch-RF12demo" |
| Serial.LoadFor | serial/serial.go:70-74 | one memo loads at most one gadget type: exactly when it is a banner whose tag is registered, and then that tag |
| Serial.Loads | serial/serial.go:69-74 | a stream loads no more gadgets than it has memos |
| Serial.LoadsStep | serial/serial.go:69-74 | one more memo appends its own load, if any |
| Serial.LoadsExactly | serial/serial.go:69-88 | a type is loaded exactly when it is registered and some memo in the stream is a banner that names it |
| Serial.NoMarkerNoLoads | serial/serial.go:69-74 | a stream without banner lines loads nothing |
| Serial.SketchType.constructor | serial/serial.go:59-65 | the gadget keeps its input, output and registry |
| Serial.SketchType.Inspect | serial/serial.go:70-74 | the banner test and registry lookup for one memo give LoadFor |
| Serial.SketchType.Run | serial/serial.go:68-93 | the input is drained; every memo is forwarded unchanged, in order; the loaded types are Loads of the stream |
| Serial.Stamped | serial/serial.go:27-32 | the stamped stream is twice as long as the input |
| Serial.StampedPointwise | serial/serial.go:28-31 | position 2i holds the time for memo i and position 2i+1 holds memo i |
| Serial.StampedKeepsMemos | serial/serial.go:28-31 | dropping the time memos gives back the input stream |
| Serial.StampedStep | serial/serial.go:28-31 | stamping one more memo appends its time and the memo |
| Serial.EmitPair | serial/serial.go:29-30 | two sends emit the two memos, in order |
| Serial.TimeStamp.constructor | serial/serial.go:20-24 | the gadget keeps its input and output |
| Serial.TimeStamp.Run | serial/serial.go:27-32 | the input is drained, and the stamped stream (time, memo, time, memo, ...) is emitted, in order |

## Left out

- Goroutines, scheduling and blocking are not modelled. A gadget's `Run` drains the memos already queued on its input, and `drained` reports whether the input was closed after that. A send into a full channel is modelled as an append; backpressure is not modelled.
- The admin channel of `Run` is a trace of messages given as a parameter. The order in which gadgets finish is not modelled, and neither is the goroutine that `Run` starts to consume it.
- Sending on a closed channel panics in Go. `Flow.Connection.Send`, `Flow.Emit` and the gadget `Run` methods require an open channel instead of modelling that panic.
- Reflection (`setPin`, `reflect.Value` pins) is not modelled. A pin is a `PinKind` and a binding is an entry in the gadget's `wired` map.
- Label pins are not bound by `Run` (`circuit.go:225-237`), and the model does the same. The commented-out alias code is not modelled.
- The `gmap` records that `initPins` computes are left unused by the code after `circuit.go:80`, and the model drops them in the same way. The merge loop visits keys in one fixed order (`pinOrder`) instead of a new Go map order on each pass.
- Circuits.Circuit.InitPins: its `gmap` records are computed with the corrected merge (`Circuits.LinkWire`), not the merge as written (`CircuitSpec.WireAsWritten`). The two can differ (see Findings), but the records are never read after `circuit.go:80`, so nothing visible depends on it.
- Circuits.Ginfos: states "both ends of every wire share a record" for the corrected merge; as written this holds only for the wire being handled (`CircuitSpec.WireAsWrittenJoins`), and `CircuitSpec.MergeAsWrittenStrandsPin` shows an earlier wire losing it.
- Circuits.Circuit.Run: when a close panics, the bindings of the gadgets visited before the panic are not stated; only that nothing was printed. The same holds for `Circuits.Circuit.StartGadgets` and `Circuits.LaunchGadgets`.
- Bindings.GadgetLoop: whether it equals the corrected loop when every producer is visited before its consumers is not proved; `Bindings.GadgetLoopAt` states what each step closes.
- GoStrings.IndexRune and GoStrings.IndexAny return character positions, where Go returns byte offsets. The core uses them only to slice the same string, so the pieces are the same.
- `nullChan` is the binding `NullChan`. Its pre-closed channel is not given a channel value.
- Gadget launching (`go g.gadget.Run()`, `defer` of the Done message) and the per-gadget `initGadget` are not modelled: gadget.go is not part of this model.
- `api/`, `DontPanic`, `Version` and the glog logging are not part of this model.
- The global registry and the `init()` registrations (`serial/serial.go:13-17`) are not modelled. The registry is a parameter that maps type names to pin tables.
- `SerialIn` (`serial/serial.go:43-54`) is left out, because it is device I/O. The local `check` (`serial/serial.go:96-100`) is the same as `Flow.Check`.
- `Serial.SketchType.Run`: the dynamic `MyGroup`, `Add`, `Connect` and `Launch` calls on a recognised banner (`serial/serial.go:76-87`) are modelled only as the list of loaded tags. The `ViaIn` copier goroutine is not modelled.
- `Serial.TimeStamp.Run`: `time.Now()` is a clock parameter that maps a memo's position to a time.
- `Serial.SketchTag`: its ensures states only the length. The tag's shape is the separate lemma `Serial.SketchTagShape`, which keeps the function cheap to unfold.
- `Serial.Loads`: its ensures states only a bound. Its meaning is stated by `Serial.LoadsExactly` and `Serial.LoadsStep`.
- Circuits.Circuit.Label: `glog.Fatalln` ends the process on a dotted external name; the model returns `ok = false` and leaves the circuit unchanged.
- Flow.WorkerPart: requires a dot in the name, since `s[:n]` with n = -1 panics in Go; the panic itself is not modelled.
- Go's 64-bit `int` for capacities and counts is modelled as unbounded integers, because no count in the core comes near overflow.

## Findings

| source | as written | input that shows it | evidently intended | confidence | as-written member | corrected member |
|---|---|---|---|---|---|---|
| circuit.go:57-65 | the merge loop compares each key's record with `gmap[to]`, but it re-reads `gmap[to]` after `to` itself has been re-pointed | pins p,q share one record and r,s another; for wire r/q, when the range visits q before p, p keeps the old record while q moves | every pin that shared to's record moves to from's record | not executed; the `gmap` result is unused afterwards, so it has no visible effect in this version | CircuitSpec.MergeAsWrittenStrandsPin | Circuits.LinkWire |
| circuit.go:220-267 | the inputs of a gadget with fanIn 0 are closed right after that gadget is bound, before later gadgets bind their outputs to them | gadget B (input In) visited before gadget A (output Out) with wire A.Out/B.In: with capacity 1, B.In is closed and then A binds Out to it (fanIn 1); with capacity 0, B.In has a nil channel and close(nil) panics (Bindings.GadgetLoopClosesNil) | close an input only when no gadget at all produces into it: bind every gadget first, then close | not executed; depends on Go map order | Bindings.GadgetLoopClosesEarly | Bindings.NoPrematureClose |
